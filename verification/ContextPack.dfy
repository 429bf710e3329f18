/** Building a context pack (core/src/context_pack.rs): policy, validation, selection under
    shared budgets, and trimming to a limit in bytes. */
module ContextPack {
  import Decimal
  import opened Ints
  import opened Json
  import opened PackJson
  import opened PackOrder
  import opened Text

  const SCHEMA_VERSION: nat := 1
  const HARD_MAX_FILES: nat := 1000
  const HARD_MAX_BYTES: nat := 1048576
  const HARD_MAX_EVIDENCE_REFS: nat := 500
  const MAX_ID_BYTES: nat := 256
  const REPO_PATH_MAX_BYTES: nat := 240
  const REF_MAX_BYTES: nat := 256
  const DIGEST_LENGTH: nat := 71

  datatype Group = CodeMapGroup | ChangedFilesGroup | TestsGroup | EvidenceRefsGroup

  const ALL_GROUPS := [CodeMapGroup, ChangedFilesGroup, TestsGroup, EvidenceRefsGroup]

  datatype Privacy = Privacy(rawTranscript: bool, promptBodies: bool, secrets: bool, privateLocalPaths: bool)

  datatype Policy = Policy(schemaVersion: nat, included: seq<Group>, limits: Limits, privacy: Privacy)

  datatype Input = Input(
    schemaVersion: nat,
    sourceHead: string,
    codeMap: seq<Entry>,
    changedFiles: seq<Entry>,
    tests: seq<Entry>,
    evidenceRefs: seq<Entry>)

  /** Functions of other files: the digest, whether a path names a safe public location, and the
      canonical key of a path. */
  datatype World = World(
    hash: string -> string,
    safeIdentity: (string, string, nat) -> bool,
    pathKey: string -> string)
  {
    /** Digests have one length. */
    ghost predicate FixedDigest() {
      forall s :: |hash(s)| == DIGEST_LENGTH
    }

    ghost predicate DigestsAreSha256() {
      forall s :: IsSha256(hash(s))
    }
  }

  // ----- identifiers and digests -----

  predicate LowerAlnum(c: char) { 'a' <= c <= 'z' || '0' <= c <= '9' }

  predicate LowerHex(s: string, length: nat) {
    |s| == length && forall i :: 0 <= i < |s| ==> '0' <= s[i] <= '9' || 'a' <= s[i] <= 'f'
  }

  predicate IsSha256(s: string) { "sha256:" <= s && LowerHex(s[7..], 64) }

  predicate IsContextPackId(s: string) {
    var parts := Split(s, '-');
    && 0 < |s| <= 64
    && (forall i :: 0 <= i < |parts| ==> parts[i] != "")
    && (forall i, j :: 0 <= i < |parts| && 0 <= j < |parts[i]| ==> LowerAlnum(parts[i][j]))
    && 'a' <= s[0] <= 'z'
  }

  /** Segments separated by "::", each starting with a letter or digit. */
  predicate TestIdFrom(s: string, atStart: bool) {
    if s == "" then !atStart
    else if atStart then LowerAlnum(s[0]) && TestIdFrom(s[1..], false)
    else if "::" <= s then TestIdFrom(s[2..], true)
    else (LowerAlnum(s[0]) || s[0] in "._-") && TestIdFrom(s[1..], false)
  }

  predicate IsStableTestId(s: string) { |s| <= MAX_ID_BYTES && TestIdFrom(s, true) }

  predicate PathChar(c: char) { LowerAlnum(c) || 'A' <= c <= 'Z' || c in "._-/" }

  predicate SafeRepoPath(w: World, s: string) {
    && s != "" && s[0] != '/' && s[|s| - 1] != '/'
    && (forall i :: 0 <= i < |s| ==> PathChar(s[i]))
    && w.safeIdentity(s, s, REPO_PATH_MAX_BYTES)
  }

  predicate Contains(s: string, part: string) {
    exists i :: 0 <= i <= |s| && part <= s[i..]
  }

  /** What follows the scheme of an evidence reference, if it has one. */
  function RefTail(s: string): Option<string> {
    if "evidence:" <= s then Some(s[9..])
    else if "context:" <= s then Some(s[8..])
    else if "context-packs/" <= s then Some(s[14..])
    else None
  }

  predicate RefChar(c: char) { LowerAlnum(c) || c in "._-/" }

  predicate SafeEvidenceRef(w: World, s: string) {
    !Contains(s, "..") && !Contains(s, "//") &&
    match RefTail(s)
    case None => false
    case Some(tail) =>
      && tail != "" && LowerAlnum(tail[0]) && tail[|tail| - 1] != '/'
      && (forall i :: 0 <= i < |tail| ==> RefChar(tail[i]))
      && w.safeIdentity(s, tail, REF_MAX_BYTES)
  }

  // ----- policy -----

  function Canonical(included: seq<Group>, groups: seq<Group>): seq<Group> {
    if groups == [] then []
    else (if groups[0] in included then [groups[0]] else []) + Canonical(included, groups[1..])
  }

  function GroupText(g: Group): string {
    match g
    case CodeMapGroup => "code-map"
    case ChangedFilesGroup => "changed-files"
    case TestsGroup => "tests"
    case EvidenceRefsGroup => "evidence-refs"
  }

  function GroupNames(included: seq<Group>): (names: seq<string>)
    ensures |names| == |included|
  {
    seq(|included|, i requires 0 <= i < |included| => Quoted(GroupText(included[i])))
  }

  /** The privacy switches of an accepted policy are all off. */
  function PrivacyText(): string {
    ObjectText(
      Field("raw-transcript", "false",
            Field("prompt-bodies", "false", Field("secrets", "false", Last("private-local-paths", "false")))))
  }

  /** The text that is fingerprinted. */
  function PolicyText(included: seq<Group>, limits: Limits): string {
    ObjectText(
      Field("schema_version", Decimal.Print(1),
            Field("include", ArrayText(GroupNames(included)),
                  Field("limits", LimitsText(limits), Last("privacy", PrivacyText())))))
  }

  predicate NoDuplicates<T(==)>(s: seq<T>) {
    forall i, j :: 0 <= i < j < |s| ==> s[i] != s[j]
  }

  predicate PolicyAccepted(p: Policy) {
    && p.schemaVersion == SCHEMA_VERSION && p.included != [] && NoDuplicates(p.included)
    && 0 < p.limits.maxFiles <= HARD_MAX_FILES
    && 0 < p.limits.maxBytes <= HARD_MAX_BYTES
    && 0 < p.limits.maxEvidenceRefs <= HARD_MAX_EVIDENCE_REFS
    && p.privacy == Privacy(false, false, false, false)
  }

  function NormalizePolicy(w: World, p: Policy): Option<(seq<Group>, Limits, string)> {
    if !PolicyAccepted(p) then None
    else
      var included := Canonical(p.included, ALL_GROUPS);
      Some((included, p.limits, w.hash(PolicyText(included, p.limits))))
  }

  // ----- validation -----

  predicate EntryOk(w: World, e: Entry) {
    match e
    case CodeMap(path, sha256) => SafeRepoPath(w, path) && IsSha256(sha256)
    case Changed(path, _, sha256) => SafeRepoPath(w, path) && IsSha256(sha256)
    case Test(testId, _, evidenceRef) => IsStableTestId(testId) && SafeEvidenceRef(w, evidenceRef)
    case Evidence(ref) => SafeEvidenceRef(w, ref)
  }

  /** The key that must not repeat: canonical paths, and for tests also the plain identifier. */
  function EntryKey(w: World, e: Entry): string {
    match e
    case CodeMap(path, _) => w.pathKey(path)
    case Changed(path, _, _) => w.pathKey(path)
    case Test(_, _, evidenceRef) => w.pathKey(evidenceRef)
    case Evidence(ref) => w.pathKey(ref)
  }

  function IdOf(e: Entry): string { if e.Test? then e.testId else "" }

  function Map<T>(f: Entry -> T, s: seq<Entry>): (r: seq<T>)
    ensures |r| == |s| && forall i :: 0 <= i < |s| ==> r[i] == f(s[i])
  {
    seq(|s|, i requires 0 <= i < |s| => f(s[i]))
  }

  function Keys(w: World, s: seq<Entry>): seq<string> { Map(e => EntryKey(w, e), s) }

  predicate AllOk(w: World, s: seq<Entry>) {
    forall i :: 0 <= i < |s| ==> EntryOk(w, s[i])
  }

  predicate Acceptable(w: World, input: Input) {
    && input.schemaVersion == SCHEMA_VERSION && LowerHex(input.sourceHead, 40)
    && AllOk(w, input.codeMap) && NoDuplicates(Keys(w, input.codeMap))
    && AllOk(w, input.changedFiles) && NoDuplicates(Keys(w, input.changedFiles))
    && AllOk(w, input.tests) && AllOk(w, input.evidenceRefs)
    && NoDuplicates(Map(IdOf, input.tests))
    && NoDuplicates(Keys(w, input.tests + input.evidenceRefs))
  }

  lemma NoDuplicatesSnoc<T>(s: seq<T>, x: T)
    ensures NoDuplicates(s + [x]) <==> NoDuplicates(s) && x !in s
  {
    assert forall i :: 0 <= i < |s| ==> (s + [x])[i] == s[i];
    if x in s {
      var i :| 0 <= i < |s| && s[i] == x;
      assert (s + [x])[i] == (s + [x])[|s|];
    }
    if NoDuplicates(s + [x]) {
      forall i, j | 0 <= i < j < |s|
        ensures s[i] != s[j]
      {
        assert (s + [x])[i] != (s + [x])[j];
      }
    }
  }

  ghost predicate Holds<T(!new)>(seen: set<T>, s: seq<T>) {
    forall x :: x in seen <==> x in s
  }

  /** One loop of the validation: every entry is fine and its key is new.  `before` are the
      entries whose keys are already in `seen`. */
  method CheckEntries(w: World, entries: seq<Entry>, ghost before: seq<Entry>, seen: set<string>) returns (ok: bool, keys: set<string>)
    requires Holds(seen, Keys(w, before)) && NoDuplicates(Keys(w, before))
    ensures ok <==> AllOk(w, entries) && NoDuplicates(Keys(w, before + entries))
    ensures ok ==> Holds(keys, Keys(w, before + entries))
  {
    hide EntryOk, EntryKey, NoDuplicates;
    keys := seen;
    assert before + entries[..0] == before;
    for i := 0 to |entries|
      invariant Holds(keys, Keys(w, before + entries[..i]))
      invariant NoDuplicates(Keys(w, before + entries[..i]))
      invariant AllOk(w, entries[..i])
    {
      var key := EntryKey(w, entries[i]);
      assert Keys(w, before + entries[..i + 1]) == Keys(w, before + entries[..i]) + [key];
      NoDuplicatesSnoc(Keys(w, before + entries[..i]), key);
      if !EntryOk(w, entries[i]) || key in keys {
        DuplicatesStay(w, before, entries, i);
        return false, keys;
      }
      keys := keys + {key};
    }
    assert entries[..|entries|] == entries;
    ok := true;
  }

  lemma DuplicatesStay(w: World, before: seq<Entry>, entries: seq<Entry>, i: nat)
    requires i < |entries|
    ensures NoDuplicates(Keys(w, before + entries)) ==> NoDuplicates(Keys(w, before + entries[..i + 1]))
  {
    hide EntryKey;
    var some, all := Keys(w, before + entries[..i + 1]), Keys(w, before + entries);
    assert forall k :: 0 <= k < |some| ==> some[k] == all[k];
  }

  /** The loop over the tests also keeps their plain identifiers apart. */
  method CheckTests(w: World, tests: seq<Entry>) returns (ok: bool, refs: set<string>)
    ensures ok <==> AllOk(w, tests) && NoDuplicates(Map(IdOf, tests)) && NoDuplicates(Keys(w, tests))
    ensures ok ==> Holds(refs, Keys(w, tests))
  {
    hide EntryOk, EntryKey, IdOf, NoDuplicates;
    var ids: set<string> := {};
    refs := {};
    NothingRepeats<string>();
    assert Map(IdOf, tests[..0]) == [] && Keys(w, tests[..0]) == [];
    for i := 0 to |tests|
      invariant Holds(ids, Map(IdOf, tests[..i])) && NoDuplicates(Map(IdOf, tests[..i]))
      invariant Holds(refs, Keys(w, tests[..i])) && NoDuplicates(Keys(w, tests[..i]))
      invariant AllOk(w, tests[..i])
    {
      var id, key := IdOf(tests[i]), EntryKey(w, tests[i]);
      assert Map(IdOf, tests[..i + 1]) == Map(IdOf, tests[..i]) + [id];
      assert Keys(w, tests[..i + 1]) == Keys(w, tests[..i]) + [key];
      NoDuplicatesSnoc(Map(IdOf, tests[..i]), id);
      NoDuplicatesSnoc(Keys(w, tests[..i]), key);
      if !EntryOk(w, tests[i]) || id in ids || key in refs {
        if id in ids {
          PrefixRepeats(Map(IdOf, tests[..i + 1]), Map(IdOf, tests));
        } else if key in refs {
          PrefixRepeats(Keys(w, tests[..i + 1]), Keys(w, tests));
        }
        return false, refs;
      }
      ids, refs := ids + {id}, refs + {key};
    }
    assert tests[..|tests|] == tests;
    ok := true;
  }

  lemma NothingRepeats<T>()
    ensures NoDuplicates<T>([])
  {
  }

  lemma PrefixRepeats<T>(some: seq<T>, all: seq<T>)
    requires some <= all && !NoDuplicates(some)
    ensures !NoDuplicates(all)
  {
    var i, j :| 0 <= i < j < |some| && some[i] == some[j];
    assert all[i] == all[j];
  }

  method ValidateInput(w: World, input: Input) returns (ok: bool)
    ensures ok <==> Acceptable(w, input)
  {
    hide NoDuplicates, EntryOk, EntryKey, LowerHex;
    NothingRepeats<string>();
    assert Keys(w, []) == [];
    assert [] + input.codeMap == input.codeMap && [] + input.changedFiles == input.changedFiles && [] + input.tests == input.tests;
    if input.schemaVersion != SCHEMA_VERSION || !LowerHex(input.sourceHead, 40) {
      return false;
    }
    var codeOk, _ := CheckEntries(w, input.codeMap, [], {});
    if !codeOk {
      return false;
    }
    var changedOk, _ := CheckEntries(w, input.changedFiles, [], {});
    if !changedOk {
      return false;
    }
    var testsOk, refs := CheckTests(w, input.tests);
    if !testsOk {
      if AllOk(w, input.tests) && NoDuplicates(Map(IdOf, input.tests)) {
        assert Keys(w, input.tests) <= Keys(w, input.tests + input.evidenceRefs);
        PrefixRepeats(Keys(w, input.tests), Keys(w, input.tests + input.evidenceRefs));
      }
      return false;
    }
    var evidenceOk, _ := CheckEntries(w, input.evidenceRefs, input.tests, refs);
    ok := evidenceOk;
  }

  // ----- selection -----

  /** How many entries of each group are kept: two groups share each budget. */
  function Select(included: seq<Group>, limits: Limits, input: Input): (Groups, Omissions) {
    var (code, changed, tests, refs) := (Sort(input.codeMap), Sort(input.changedFiles), Sort(input.tests), Sort(input.evidenceRefs));
    var keepCode := if CodeMapGroup in included then Min(limits.maxFiles, |code|) else 0;
    var keepChanged := if ChangedFilesGroup in included then Min(limits.maxFiles - keepCode, |changed|) else 0;
    var keepTests := if TestsGroup in included then Min(limits.maxEvidenceRefs, |tests|) else 0;
    var keepRefs := if EvidenceRefsGroup in included then Min(limits.maxEvidenceRefs - keepTests, |refs|) else 0;
    (Groups(code[..keepCode], changed[..keepChanged], tests[..keepTests], refs[..keepRefs]),
     Omissions(|code| - keepCode, |changed| - keepChanged, |tests| - keepTests, |refs| - keepRefs, 0))
  }

  predicate Fits(p: Pack) { |Serialize(p)| <= p.limits.maxBytes }

  /** Remove entries until the text fits. */
  function Trimmed(p: Pack): Option<Pack>
    decreases p.groups.Count()
  {
    if Fits(p) then Some(p) else if p.groups.Count() == 0 then None else Trimmed(RemoveOne(p))
  }

  function Assemble(packId: string, included: seq<Group>, limits: Limits, fingerprint: string, input: Input): Pack {
    var (groups, omissions) := Select(included, limits, input);
    Pack(packId, input.sourceHead, fingerprint, limits, groups, omissions)
  }

  /** The selected entries before any is trimmed, when policy and input are accepted. */
  function Untrimmed(w: World, policies: map<string, Policy>, packId: string, input: Input): Option<Pack> {
    if !IsContextPackId(packId) || packId !in policies || !Acceptable(w, input) then None
    else
      match NormalizePolicy(w, policies[packId])
      case None => None
      case Some((included, limits, fingerprint)) => Some(Assemble(packId, included, limits, fingerprint, input))
  }

  function Build(w: World, policies: map<string, Policy>, packId: string, input: Input): Option<Pack> {
    match Untrimmed(w, policies, packId, input)
    case None => None
    case Some(full) => Trimmed(full)
  }

  datatype Projection = Projection(canonicalJson: string, digest: string, byteCount: nat)

  /** A context pack while it is being trimmed. */
  class CanonicalContextPack {
    const packId: string
    const sourceHead: string
    const fingerprint: string
    const limits: Limits
    var groups: Groups
    var omissions: Omissions

    function Model(): Pack
      reads this
    {
      Pack(packId, sourceHead, fingerprint, limits, groups, omissions)
    }

    constructor (p: Pack)
      ensures Model() == p
    {
      packId, sourceHead, fingerprint, limits, groups, omissions :=
        p.packId, p.sourceHead, p.fingerprint, p.limits, p.groups, p.omissions;
    }

    method RemoveOneForByteLimit() returns (removed: bool)
      modifies this
      ensures removed <==> old(groups.Count()) > 0
      ensures Model() == if old(groups.Count()) > 0 then RemoveOne(old(Model())) else old(Model())
    {
      if groups.evidenceRefs != [] {
        groups := groups.(evidenceRefs := groups.evidenceRefs[..|groups.evidenceRefs| - 1]);
        omissions := omissions.(evidenceRefs := omissions.evidenceRefs + 1);
      } else if groups.tests != [] {
        groups := groups.(tests := groups.tests[..|groups.tests| - 1]);
        omissions := omissions.(tests := omissions.tests + 1);
      } else if groups.changedFiles != [] {
        groups := groups.(changedFiles := groups.changedFiles[..|groups.changedFiles| - 1]);
        omissions := omissions.(changedFiles := omissions.changedFiles + 1);
      } else if groups.codeMap != [] {
        groups := groups.(codeMap := groups.codeMap[..|groups.codeMap| - 1]);
        omissions := omissions.(codeMap := omissions.codeMap + 1);
      } else {
        return false;
      }
      omissions := omissions.(omittedByBytes := omissions.omittedByBytes + 1);
      return true;
    }

    method TrimToByteLimit() returns (fits: bool)
      modifies this
      ensures Trimmed(old(Model())) == if fits then Some(Model()) else None
    {
      hide Serialize, RemoveOne;
      while true
        invariant Trimmed(Model()) == Trimmed(old(Model()))
        decreases groups.Count()
      {
        var bytes := Serialize(Model());
        if |bytes| <= limits.maxBytes {
          return true;
        }
        var removed := RemoveOneForByteLimit();
        if !removed {
          return false;
        }
      }
    }
  }

  method SelectGroups(included: seq<Group>, limits: Limits, input: Input) returns (groups: Groups, omissions: Omissions)
    ensures (groups, omissions) == Select(included, limits, input)
  {
    hide Sort;
    var codeMap, changedFiles := Sort(input.codeMap), Sort(input.changedFiles);
    var tests, evidenceRefs := Sort(input.tests), Sort(input.evidenceRefs);
    groups, omissions := Groups([], [], [], []), Omissions(0, 0, 0, 0, 0);
    var remainingFiles := limits.maxFiles;
    if CodeMapGroup in included {
      var keep := Min(remainingFiles, |codeMap|);
      groups := groups.(codeMap := codeMap[..keep]);
      omissions := omissions.(codeMap := |codeMap| - keep);
      remainingFiles := remainingFiles - keep;
    } else {
      omissions := omissions.(codeMap := |codeMap|);
    }
    if ChangedFilesGroup in included {
      var keep := Min(remainingFiles, |changedFiles|);
      groups := groups.(changedFiles := changedFiles[..keep]);
      omissions := omissions.(changedFiles := |changedFiles| - keep);
    } else {
      omissions := omissions.(changedFiles := |changedFiles|);
    }
    var remainingRefs := limits.maxEvidenceRefs;
    if TestsGroup in included {
      var keep := Min(remainingRefs, |tests|);
      groups := groups.(tests := tests[..keep]);
      omissions := omissions.(tests := |tests| - keep);
      remainingRefs := remainingRefs - keep;
    } else {
      omissions := omissions.(tests := |tests|);
    }
    if EvidenceRefsGroup in included {
      var keep := Min(remainingRefs, |evidenceRefs|);
      groups := groups.(evidenceRefs := evidenceRefs[..keep]);
      omissions := omissions.(evidenceRefs := |evidenceRefs| - keep);
    } else {
      omissions := omissions.(evidenceRefs := |evidenceRefs|);
    }
  }

  method BuildContextPack(w: World, policies: map<string, Policy>, packId: string, input: Input) returns (r: Option<Projection>)
    ensures
      match Build(w, policies, packId, input)
      case None => r == None
      case Some(p) => r == Some(Projection(Serialize(p), w.hash(Serialize(p)), |Serialize(p)|))
    ensures w.DigestsAreSha256() && r.Some? ==> ReadPack(r.value.canonicalJson) == Build(w, policies, packId, input)
  {
    hide Serialize, Acceptable, IsContextPackId, Select, Trimmed;
    if !IsContextPackId(packId) || packId !in policies {
      return None;
    }
    var normalized := NormalizePolicy(w, policies[packId]);
    if normalized.None? {
      return None;
    }
    var (included, limits, fingerprint) := normalized.value;
    var ok := ValidateInput(w, input);
    if !ok {
      return None;
    }
    var groups, omissions := SelectGroups(included, limits, input);
    var canonical := new CanonicalContextPack(Pack(packId, input.sourceHead, fingerprint, limits, groups, omissions));
    var fits := canonical.TrimToByteLimit();
    if !fits {
      return None;
    }
    var bytes := Serialize(canonical.Model());
    r := Some(Projection(bytes, w.hash(bytes), |bytes|));
    ReadsBackIfDigests(w, policies, packId, input);
  }

  // ----- trimming keeps the longest pack of the chain that fits -----

  lemma {:induction false} RemovedOneMore(p: Pack, k: nat)
    requires k < p.groups.Count()
    ensures Removed(RemoveOne(p), k) == Removed(p, k + 1)
    decreases k
  {
    hide RemoveOne;
    if k > 0 {
      RemovedOneMore(p, k - 1);
    } else {
      assert Removed(p, 1) == RemoveOne(Removed(p, 0));
    }
  }

  /** k removals are enough and fewer are not. */
  ghost predicate FirstFit(p: Pack, k: nat) {
    k <= p.groups.Count() && Fits(Removed(p, k)) && forall j :: 0 <= j < k ==> !Fits(Removed(p, j))
  }

  lemma {:induction false} TrimFindsFirstFit(p: Pack) returns (k: nat)
    ensures Trimmed(p).Some? ==> FirstFit(p, k) && Trimmed(p).value == Removed(p, k)
    ensures Trimmed(p).None? ==> forall j :: 0 <= j <= p.groups.Count() ==> !Fits(Removed(p, j))
    decreases p.groups.Count()
  {
    hide Fits, RemoveOne;
    k := 0;
    if !Fits(p) && p.groups.Count() > 0 {
      var q := RemoveOne(p);
      var i := TrimFindsFirstFit(q);
      forall j | 0 <= j < p.groups.Count()
        ensures Removed(q, j) == Removed(p, j + 1)
      {
        RemovedOneMore(p, j);
      }
      forall j | 1 <= j <= p.groups.Count()
        ensures Removed(p, j) == Removed(q, j - 1)
      {
      }
      k := i + 1;
    }
  }

  /** q is in the removal chain of p and its text keeps the byte limit of p, and nothing in the chain that
      does is longer or fuller. */
  ghost predicate LongestFitting(p: Pack, q: Pack) {
    && |Serialize(q)| <= p.limits.maxBytes
    && (exists k :: 0 <= k <= p.groups.Count() && q == Removed(p, k))
    && forall j :: 0 <= j <= p.groups.Count() && |Serialize(Removed(p, j))| <= p.limits.maxBytes ==>
         |Serialize(Removed(p, j))| <= |Serialize(q)| && Removed(p, j).groups.Count() <= q.groups.Count()
  }

  lemma FitsFromThereOn(p: Pack, j: nat, k: nat)
    requires AllFilled(p.groups) && j <= k <= p.groups.Count() && Fits(Removed(p, j))
    ensures Fits(Removed(p, k)) && |Serialize(Removed(p, k))| <= |Serialize(Removed(p, j))|
  {
    hide Serialize, RemoveOne, Removed;
    if j < k {
      ChainShortens(p, j, k);
      RemovedHeader(p, j);
      RemovedHeader(p, k);
    }
  }

  /** Trimming ends with the longest pack of the removal chain that fits, and fails exactly when
      even with no entries the text is too long. */
  lemma TrimKeepsLongestFitting(p: Pack)
    requires AllFilled(p.groups)
    ensures Trimmed(p).None? <==> |Serialize(Removed(p, p.groups.Count()))| > p.limits.maxBytes
    ensures Trimmed(p).Some? ==> LongestFitting(p, Trimmed(p).value)
  {
    hide Serialize, RemoveOne, Removed, AllFilled, Trimmed;
    var n := p.groups.Count();
    var k := TrimFindsFirstFit(p);
    forall j | 0 <= j <= n
      ensures Fits(Removed(p, j)) <==> |Serialize(Removed(p, j))| <= p.limits.maxBytes
    {
      RemovedHeader(p, j);
    }
    if Trimmed(p).Some? {
      FitsFromThereOn(p, k, n);
      forall j | 0 <= j <= n && Fits(Removed(p, j))
        ensures j >= k && |Serialize(Removed(p, j))| <= |Serialize(Removed(p, k))|
      {
        if k <= j { FitsFromThereOn(p, k, j); }
      }
    }
  }

  /** A pack is built exactly when everything else is accepted and the pack without entries fits; it
      is then the longest pack of the removal chain that fits. */
  lemma BuildKeepsLongestFitting(w: World, policies: map<string, Policy>, packId: string, input: Input)
    ensures
      var (full, built) := (Untrimmed(w, policies, packId, input), Build(w, policies, packId, input));
      && (built.Some? <==>
            full.Some? && |Serialize(Removed(full.value, full.value.groups.Count()))| <= full.value.limits.maxBytes)
      && (built.Some? ==> LongestFitting(full.value, built.value))
  {
    hide Acceptable, IsContextPackId, Assemble, NormalizePolicy, AllFilled, LongestFitting, Trimmed, Removed, Serialize;
    if Untrimmed(w, policies, packId, input).Some? {
      var (included, limits, fingerprint) := NormalizePolicy(w, policies[packId]).value;
      AcceptedIsFilled(w, packId, included, limits, fingerprint, input);
      TrimKeepsLongestFitting(Untrimmed(w, policies, packId, input).value);
    }
  }

  /** Every group of `g` begins the same group of `h`. */
  predicate GroupsBegin(g: Groups, h: Groups) {
    g.codeMap <= h.codeMap && g.changedFiles <= h.changedFiles && g.tests <= h.tests && g.evidenceRefs <= h.evidenceRefs
  }

  lemma {:induction false} ChainBegins(p: Pack, j: nat, k: nat)
    requires j <= k <= p.groups.Count()
    ensures GroupsBegin(Removed(p, k).groups, Removed(p, j).groups)
    decreases k
  {
    if j < k {
      hide RemoveOne;
      ChainBegins(p, j, k - 1);
      RemoveOneBegins(Removed(p, k - 1));
    }
  }

  lemma RemoveOneBegins(p: Pack)
    requires p.groups.Count() > 0
    ensures GroupsBegin(RemoveOne(p).groups, p.groups)
  {
  }

  /** With a larger limit on bytes no entry that was kept is lost. */
  lemma LargerLimitTrimsLess(p: Pack, maxBytes: nat, fingerprint: string)
    requires p.limits.maxBytes <= maxBytes && |fingerprint| == |p.fingerprint|
    ensures
      var larger := Trimmed(Relimit(p, maxBytes, fingerprint));
      Trimmed(p).Some? ==> larger.Some? && GroupsBegin(Trimmed(p).value.groups, larger.value.groups)
  {
    hide Serialize, RemoveOne, Relimit, Removed, GroupsBegin;
    var q := Relimit(p, maxBytes, fingerprint);
    RelimitGroups(p, maxBytes, fingerprint);
    var k := TrimFindsFirstFit(p);
    var i := TrimFindsFirstFit(q);
    if Trimmed(p).Some? {
      RelimitRemoved(p, maxBytes, fingerprint, k);
      RemovedHeader(p, k);
      RemovedHeader(q, k);
      RelimitLength(Removed(p, k), maxBytes, fingerprint);
      RelimitGroups(Removed(p, k), maxBytes, fingerprint);
      assert Fits(Removed(q, k));
      assert i <= k;
      ChainBegins(q, i, k);
    }
  }

  lemma RelimitGroups(p: Pack, maxBytes: nat, fingerprint: string)
    ensures Relimit(p, maxBytes, fingerprint).groups == p.groups && Relimit(p, maxBytes, fingerprint).limits.maxBytes == maxBytes
  {
  }

  /** The byte limit plays no part in the selection. */
  lemma AssembleRelimited(packId: string, included: seq<Group>, limits: Limits, fingerprint: string, maxBytes: nat, other: string, input: Input)
    ensures Assemble(packId, included, limits.(maxBytes := maxBytes), other, input)
         == Relimit(Assemble(packId, included, limits, fingerprint, input), maxBytes, other)
  {
    hide Sort;
  }

  /** Raising max-bytes in the policy keeps every entry that was kept, each group beginning as
      before, although the limit and the fingerprint of the policy are printed in it. */
  lemma RaisingMaxBytesKeepsMore(w: World, policies: map<string, Policy>, packId: string, input: Input, maxBytes: nat)
    requires w.FixedDigest() && packId in policies
    requires policies[packId].limits.maxBytes <= maxBytes <= HARD_MAX_BYTES
    ensures
      var raised := policies[packId := policies[packId].(limits := policies[packId].limits.(maxBytes := maxBytes))];
      var (before, after) := (Build(w, policies, packId, input), Build(w, raised, packId, input));
      before.Some? ==> after.Some? && GroupsBegin(before.value.groups, after.value.groups)
  {
    hide Acceptable, IsContextPackId, Trimmed, PolicyText, Select, Relimit, Canonical, NoDuplicates, GroupsBegin;
    var policy := policies[packId];
    var limits := policy.limits.(maxBytes := maxBytes);
    if Build(w, policies, packId, input).Some? {
      var included := Canonical(policy.included, ALL_GROUPS);
      var p := Assemble(packId, included, policy.limits, w.hash(PolicyText(included, policy.limits)), input);
      var fingerprint := w.hash(PolicyText(included, limits));
      AssembleRelimited(packId, included, policy.limits, p.fingerprint, maxBytes, fingerprint, input);
      LargerLimitTrimsLess(p, maxBytes, fingerprint);
    }
  }

  // ----- what is kept -----

  /** Kept entries are a prefix of the sorted group, and with the omitted ones they are all. */
  ghost predicate GroupAccounted(kept: seq<Entry>, omitted: nat, group: seq<Entry>) {
    kept <= Sort(group) && |kept| + omitted == |group|
  }

  ghost predicate Accounted(p: Pack, input: Input) {
    && GroupAccounted(p.groups.codeMap, p.omissions.codeMap, input.codeMap)
    && GroupAccounted(p.groups.changedFiles, p.omissions.changedFiles, input.changedFiles)
    && GroupAccounted(p.groups.tests, p.omissions.tests, input.tests)
    && GroupAccounted(p.groups.evidenceRefs, p.omissions.evidenceRefs, input.evidenceRefs)
    && |p.groups.codeMap| + |p.groups.changedFiles| <= p.limits.maxFiles
    && |p.groups.tests| + |p.groups.evidenceRefs| <= p.limits.maxEvidenceRefs
  }

  lemma SelectionAccounted(packId: string, included: seq<Group>, limits: Limits, fingerprint: string, input: Input)
    ensures Accounted(Assemble(packId, included, limits, fingerprint, input), input)
    ensures Assemble(packId, included, limits, fingerprint, input).omissions.omittedByBytes == 0
  {
    hide Sort;
    SortSorts(input.codeMap);
    SortSorts(input.changedFiles);
    SortSorts(input.tests);
    SortSorts(input.evidenceRefs);
  }

  /** The budgets are spent greedily: a group that is not included keeps nothing; an included one
      omits entries only when its budget is used up, the first group of each pair by itself. */
  predicate Greedy(included: seq<Group>, limits: Limits, g: Groups, o: Omissions) {
    && (CodeMapGroup !in included ==> g.codeMap == []) && (ChangedFilesGroup !in included ==> g.changedFiles == [])
    && (TestsGroup !in included ==> g.tests == []) && (EvidenceRefsGroup !in included ==> g.evidenceRefs == [])
    && (CodeMapGroup in included && o.codeMap > 0 ==> |g.codeMap| == limits.maxFiles)
    && (ChangedFilesGroup in included && o.changedFiles > 0 ==> |g.codeMap| + |g.changedFiles| == limits.maxFiles)
    && (TestsGroup in included && o.tests > 0 ==> |g.tests| == limits.maxEvidenceRefs)
    && (EvidenceRefsGroup in included && o.evidenceRefs > 0 ==> |g.tests| + |g.evidenceRefs| == limits.maxEvidenceRefs)
  }

  lemma SelectionIsGreedy(included: seq<Group>, limits: Limits, input: Input)
    ensures var (g, o) := Select(included, limits, input); Greedy(included, limits, g, o)
  {
    hide Sort;
  }

  /** Trimming empties evidence references before tests, tests before changed files, and those
      before the code map. */
  lemma {:induction false} RemovalOrder(p: Pack, k: nat)
    requires k <= p.groups.Count()
    ensures
      var g := Removed(p, k).groups;
      && (g.tests != p.groups.tests ==> g.evidenceRefs == [])
      && (g.changedFiles != p.groups.changedFiles ==> g.tests == [] && g.evidenceRefs == [])
      && (g.codeMap != p.groups.codeMap ==> g.changedFiles == [] && g.tests == [] && g.evidenceRefs == [])
    decreases k
  {
    if k > 0 {
      RemovalOrder(p, k - 1);
    }
  }

  lemma RemoveOneAccounted(p: Pack, input: Input)
    requires p.groups.Count() > 0 && Accounted(p, input)
    ensures Accounted(RemoveOne(p), input)
    ensures RemoveOne(p).omissions.omittedByBytes == p.omissions.omittedByBytes + 1
  {
    hide GroupAccounted;
    var g := p.groups;
    if g.evidenceRefs != [] { DropLastAccounted(g.evidenceRefs, p.omissions.evidenceRefs, input.evidenceRefs); }
    else if g.tests != [] { DropLastAccounted(g.tests, p.omissions.tests, input.tests); }
    else if g.changedFiles != [] { DropLastAccounted(g.changedFiles, p.omissions.changedFiles, input.changedFiles); }
    else { DropLastAccounted(g.codeMap, p.omissions.codeMap, input.codeMap); }
  }

  lemma DropLastAccounted(kept: seq<Entry>, omitted: nat, group: seq<Entry>)
    requires kept != [] && GroupAccounted(kept, omitted, group)
    ensures GroupAccounted(kept[..|kept| - 1], omitted + 1, group)
  {
    hide Sort;
  }

  lemma {:induction false} RemovalAccounted(p: Pack, input: Input, k: nat)
    requires k <= p.groups.Count() && Accounted(p, input)
    ensures Accounted(Removed(p, k), input)
    ensures Removed(p, k).omissions.omittedByBytes == p.omissions.omittedByBytes + k
    decreases k
  {
    if k > 0 {
      hide RemoveOne, Accounted;
      RemovalAccounted(p, input, k - 1);
      RemoveOneAccounted(Removed(p, k - 1), input);
    }
  }

  /** In every built pack each group is a prefix of its sorted input, kept and omitted add up to the
      input, both shared budgets hold, and the byte counter is the number of entries trimmed. */
  lemma BuiltPackAccounted(w: World, policies: map<string, Policy>, packId: string, input: Input)
    requires Build(w, policies, packId, input).Some?
    ensures
      var p := Build(w, policies, packId, input).value;
      && Fits(p) && Accounted(p, input) && p.limits == policies[packId].limits
      && p.groups.Count() + p.omissions.omittedByBytes
         == Select(Canonical(policies[packId].included, ALL_GROUPS), policies[packId].limits, input).0.Count()
  {
    hide Acceptable, IsContextPackId, Accounted, Serialize, Select;
    var (included, limits, fingerprint) := NormalizePolicy(w, policies[packId]).value;
    var p := Assemble(packId, included, limits, fingerprint, input);
    var k := TrimFindsFirstFit(p);
    SelectionAccounted(packId, included, limits, fingerprint, input);
    RemovalAccounted(p, input, k);
    RemovedHeader(p, k);
  }

  /** Accepted inputs never hold an entry that trimming could remove without shortening the text. */
  lemma AcceptedIsFilled(w: World, packId: string, included: seq<Group>, limits: Limits, fingerprint: string, input: Input)
    requires Acceptable(w, input)
    ensures AllFilled(Assemble(packId, included, limits, fingerprint, input).groups)
  {
    hide Sort, NoDuplicates, IsSha256, IsStableTestId, LowerHex;
    SortedFilled(w, input.codeMap);
    SortedFilled(w, input.changedFiles);
    SortedFilled(w, input.tests);
    SortedFilled(w, input.evidenceRefs);
  }

  lemma SortedOk(w: World, s: seq<Entry>)
    requires AllOk(w, s)
    ensures AllOk(w, Sort(s))
  {
    hide Sort, EntryOk;
    SortSorts(s);
    forall i | 0 <= i < |Sort(s)|
      ensures EntryOk(w, Sort(s)[i])
    {
      assert Sort(s)[i] in multiset(Sort(s));
      var j :| 0 <= j < |s| && s[j] == Sort(s)[i];
    }
  }

  lemma OkIsFilled(w: World, e: Entry)
    requires EntryOk(w, e)
    ensures Filled(e)
  {
  }

  lemma SortedFilled(w: World, s: seq<Entry>)
    requires AllOk(w, s)
    ensures forall i :: 0 <= i < |Sort(s)| ==> Filled(Sort(s)[i])
  {
    hide Sort, EntryOk;
    SortedOk(w, s);
    forall i | 0 <= i < |Sort(s)|
      ensures Filled(Sort(s)[i])
    {
      OkIsFilled(w, Sort(s)[i]);
    }
  }

  // ----- accepted strings need no escaping -----

  lemma {:induction false} TestIdPlain(s: string, atStart: bool)
    requires TestIdFrom(s, atStart)
    ensures Plain(s)
    decreases |s|
  {
    if s != "" {
      var n := if !atStart && "::" <= s then 2 else 1;
      TestIdPlain(s[n..], n == 2);
      assert forall i :: n <= i < |s| ==> s[i] == s[n..][i - n];
    }
  }

  lemma RefPlain(w: World, s: string)
    requires SafeEvidenceRef(w, s)
    ensures Plain(s)
  {
    hide Contains, Plain;
    var tail := RefTail(s).value;
    TailPlain(tail);
    SchemesPlain();
    if "evidence:" <= s {
      PlainAppend("evidence:", tail);
      assert s == "evidence:" + tail;
    } else if "context:" <= s {
      PlainAppend("context:", tail);
      assert s == "context:" + tail;
    } else {
      PlainAppend("context-packs/", tail);
      assert s == "context-packs/" + tail;
    }
  }

  lemma TailPlain(tail: string)
    requires forall i :: 0 <= i < |tail| ==> RefChar(tail[i])
    ensures Plain(tail)
  {
  }

  lemma SchemesPlain()
    ensures Plain("evidence:") && Plain("context:") && Plain("context-packs/")
  {
  }

  lemma PlainAppend(a: string, b: string)
    requires Plain(a) && Plain(b)
    ensures Plain(a + b)
  {
  }

  lemma Sha256Plain(s: string)
    requires IsSha256(s)
    ensures Plain(s)
  {
    forall i | 0 <= i < |s|
      ensures ' ' <= s[i] <= '~' && s[i] != '"' && s[i] != '\\'
    {
      if i < 7 { assert s[i] == "sha256:"[i]; } else { assert s[i] == s[7..][i - 7]; }
    }
  }

  /** Every string an accepted entry holds stands between quotes as it is. */
  lemma AcceptedEntryIsPlain(w: World, e: Entry)
    requires EntryOk(w, e)
    ensures EntryPlain(e)
  {
    hide Plain, TestIdFrom, SafeEvidenceRef;
    match e {
      case CodeMap(path, sha256) => Sha256Plain(sha256); PathPlain(w, path);
      case Changed(path, _, sha256) => Sha256Plain(sha256); PathPlain(w, path);
      case Test(testId, _, evidenceRef) => TestIdPlain(testId, true); RefPlain(w, evidenceRef);
      case Evidence(ref) => RefPlain(w, ref);
    }
  }

  lemma PathPlain(w: World, s: string)
    requires SafeRepoPath(w, s)
    ensures Plain(s)
  {
  }

  lemma {:induction false} PiecesPlain(s: string, sep: char -> bool)
    requires forall c :: sep(c) ==> Plain([c])
    requires forall i :: 0 <= i < |SplitWhere(s, sep)| ==> Plain(SplitWhere(s, sep)[i])
    ensures Plain(s)
    decreases |s|
  {
    hide Plain;
    if s == "" {
      NothingPlain();
    } else {
      var rest := SplitWhere(s[1..], sep);
      assert s == [s[0]] + s[1..];
      if sep(s[0]) {
        assert forall i :: 0 <= i < |rest| ==> rest[i] == SplitWhere(s, sep)[i + 1];
      } else {
        var first := SplitWhere(s, sep)[0];
        assert first == [s[0]] + rest[0];
        PlainParts([s[0]], rest[0]);
        assert forall i :: 1 <= i < |rest| ==> rest[i] == SplitWhere(s, sep)[i];
      }
      PiecesPlain(s[1..], sep);
      PlainAppend([s[0]], s[1..]);
    }
  }

  lemma NothingPlain()
    ensures Plain("")
  {
  }

  lemma PlainParts(a: string, b: string)
    requires Plain(a + b)
    ensures Plain(a) && Plain(b)
  {
    assert forall i :: 0 <= i < |a| ==> (a + b)[i] == a[i];
    assert forall i :: 0 <= i < |b| ==> (a + b)[|a| + i] == b[i];
  }

  lemma PackIdPlain(s: string)
    requires IsContextPackId(s)
    ensures Plain(s)
  {
    var parts := Split(s, '-');
    forall i | 0 <= i < |parts|
      ensures Plain(parts[i])
    {
      assert forall j :: 0 <= j < |parts[i]| ==> LowerAlnum(parts[i][j]);
    }
    PiecesPlain(s, c => c == '-');
  }

  lemma KeptEntriesPlain(w: World, kept: seq<Entry>, group: seq<Entry>)
    requires AllOk(w, group) && kept <= Sort(group)
    ensures EntriesPlain(kept)
  {
    hide Sort, EntryOk, EntryPlain;
    SortedOk(w, group);
    forall i | 0 <= i < |kept|
      ensures EntryPlain(kept[i])
    {
      assert kept[i] == Sort(group)[i];
      AcceptedEntryIsPlain(w, kept[i]);
    }
  }

  /** In every built pack each string stands in the JSON text as it is, without escapes: identifier,
      source head, fingerprint and the strings of all entries kept. */
  lemma BuiltPackIsPlain(w: World, policies: map<string, Policy>, packId: string, input: Input)
    requires w.DigestsAreSha256() && Build(w, policies, packId, input).Some?
    ensures AllPlain(Build(w, policies, packId, input).value)
  {
    hide IsContextPackId, Serialize, Select, EntryOk, NoDuplicates, Plain, EntriesPlain, PolicyText, IsSha256, LowerHex, Sort;
    var p := Build(w, policies, packId, input).value;
    BuiltPackAccounted(w, policies, packId, input);
    BuiltPackHeader(w, policies, packId, input);
    PackIdPlain(packId);
    HexPlain(input.sourceHead, 40);
    Sha256Plain(p.fingerprint);
    KeptEntriesPlain(w, p.groups.codeMap, input.codeMap);
    KeptEntriesPlain(w, p.groups.changedFiles, input.changedFiles);
    KeptEntriesPlain(w, p.groups.tests, input.tests);
    KeptEntriesPlain(w, p.groups.evidenceRefs, input.evidenceRefs);
  }

  lemma HexPlain(s: string, length: nat)
    requires LowerHex(s, length)
    ensures Plain(s)
  {
  }

  lemma BuiltPackHeader(w: World, policies: map<string, Policy>, packId: string, input: Input)
    requires w.DigestsAreSha256() && Build(w, policies, packId, input).Some?
    ensures
      var p := Build(w, policies, packId, input).value;
      p.packId == packId && p.sourceHead == input.sourceHead && IsSha256(p.fingerprint)
  {
    hide Acceptable, IsContextPackId, Serialize, Select, PolicyText, IsSha256;
    var p := Untrimmed(w, policies, packId, input).value;
    var k := TrimFindsFirstFit(p);
    RemovedHeader(p, k);
  }

  // ----- the texts that are printed and fingerprinted are read back -----

  lemma ReadsBackIfDigests(w: World, policies: map<string, Policy>, packId: string, input: Input)
    ensures
      var built := Build(w, policies, packId, input);
      w.DigestsAreSha256() && built.Some? ==> ReadPack(Serialize(built.value)) == built
  {
    hide Build, Serialize, ReadPack;
    if w.DigestsAreSha256() && Build(w, policies, packId, input).Some? {
      BuiltPackReadsBack(w, policies, packId, input);
    }
  }

  /** The projection, read by the names of its members, is the built pack, under the identifier, source
      head and limits it was asked for. */
  lemma BuiltPackReadsBack(w: World, policies: map<string, Policy>, packId: string, input: Input)
    requires w.DigestsAreSha256() && Build(w, policies, packId, input).Some?
    ensures
      var p := Build(w, policies, packId, input).value;
      && ReadPack(Serialize(p)) == Some(p)
      && p.packId == packId && p.sourceHead == input.sourceHead && p.limits == policies[packId].limits
  {
    hide Serialize, ReadPack, AllPlain, Untrimmed, IsContextPackId, Acceptable, Accounted, Select;
    BuiltPackIsPlain(w, policies, packId, input);
    BuiltPackHeader(w, policies, packId, input);
    BuiltPackAccounted(w, policies, packId, input);
    PackReadsBack(Build(w, policies, packId, input).value);
  }

  function ReadGroup(j: Json): Option<Group> {
    if !j.Str? then None
    else
      match j.text
      case "code-map" => Some(CodeMapGroup)
      case "changed-files" => Some(ChangedFilesGroup)
      case "tests" => Some(TestsGroup)
      case "evidence-refs" => Some(EvidenceRefsGroup)
      case _ => None
  }

  function ReadInclude(js: seq<Json>): Option<seq<Group>> {
    if js == [] then Some([])
    else
      match (ReadGroup(js[0]), ReadInclude(js[1..]))
      case (Some(g), Some(rest)) => Some([g] + rest)
      case _ => None
  }

  function ReadPrivacy(j: Json): Option<Privacy> {
    if j.Obj? && Named(j.members, ["raw-transcript", "prompt-bodies", "secrets", "private-local-paths"])
       && (forall i :: 0 <= i < |j.members| ==> j.members[i].1.Bool?)
    then Some(Privacy(j.members[0].1.flag, j.members[1].1.flag, j.members[2].1.flag, j.members[3].1.flag))
    else None
  }

  /** A normalised policy from its text. */
  function ReadPolicy(text: string): Option<Policy> {
    match Read(text)
    case Some(Obj(ms)) =>
      if Named(ms, ["schema_version", "include", "limits", "privacy"]) && ms[0].1.Num? && ms[1].1.Arr? then
        match (ReadInclude(ms[1].1.items), ReadLimits(ms[2].1), ReadPrivacy(ms[3].1))
        case (Some(included), Some(limits), Some(privacy)) => Some(Policy(ms[0].1.number, included, limits, privacy))
        case _ => None
      else None
    case _ => None
  }

  function IncludeJsons(included: seq<Group>): (js: seq<Json>)
    ensures |js| == |included|
  {
    seq(|included|, i requires 0 <= i < |included| => Str(GroupText(included[i])))
  }

  lemma {:induction false} IncludeReadsBack(included: seq<Group>)
    ensures ReadInclude(IncludeJsons(included)) == Some(included)
    decreases |included|
  {
    if included != [] {
      IncludeReadsBack(included[1..]);
      assert IncludeJsons(included)[1..] == IncludeJsons(included[1..]);
      assert included == [included[0]] + included[1..];
    }
  }

  lemma GroupTextPlain(g: Group)
    ensures Plain(GroupText(g))
  {
  }

  lemma IncludeDenotes(included: seq<Group>)
    ensures Denotes(ArrayText(GroupNames(included)), Arr(IncludeJsons(included)))
  {
    hide Denotes, ArrayText, Plain, GroupText, Quoted;
    forall i | 0 <= i < |included|
      ensures Denotes(GroupNames(included)[i], IncludeJsons(included)[i])
    {
      GroupTextPlain(included[i]);
      StringDenotes(GroupText(included[i]));
    }
    ArrayDenotes(GroupNames(included), IncludeJsons(included));
  }

  lemma PolicyNamesPlain()
    ensures Plain("raw-transcript") && Plain("prompt-bodies") && Plain("secrets") && Plain("private-local-paths")
    ensures Plain("schema_version") && Plain("include") && Plain("limits") && Plain("privacy")
  {
  }

  const ALL_OFF := Privacy(false, false, false, false)

  const PRIVACY_JSON :=
    Obj([("raw-transcript", Bool(false)), ("prompt-bodies", Bool(false)), ("secrets", Bool(false)),
         ("private-local-paths", Bool(false))])

  lemma PrivacyDenotes()
    ensures Denotes(PrivacyText(), PRIVACY_JSON) && ReadPrivacy(PRIVACY_JSON) == Some(ALL_OFF)
  {
    hide Denotes, FieldsDenote, Plain, ObjectText, FieldsText;
    PolicyNamesPlain();
    FalseDenotes();
    var f := Last("private-local-paths", "false");
    var m := [("private-local-paths", Bool(false))];
    LastDenotes("private-local-paths", "false", Bool(false));
    FieldDenotes("secrets", "false", Bool(false), f, m);
    f, m := Field("secrets", "false", f), [("secrets", Bool(false))] + m;
    FieldDenotes("prompt-bodies", "false", Bool(false), f, m);
    f, m := Field("prompt-bodies", "false", f), [("prompt-bodies", Bool(false))] + m;
    FieldDenotes("raw-transcript", "false", Bool(false), f, m);
    f, m := Field("raw-transcript", "false", f), [("raw-transcript", Bool(false))] + m;
    ObjectDenotes(f, m);
    assert m == PRIVACY_JSON.members;
  }

  function PolicyTree(included: seq<Group>, limits: Limits): Json {
    Obj([("schema_version", Num(1)), ("include", Arr(IncludeJsons(included))), ("limits", LimitsJson(limits)),
         ("privacy", PRIVACY_JSON)])
  }

  lemma PolicyDenotes(included: seq<Group>, limits: Limits)
    ensures Denotes(PolicyText(included, limits), PolicyTree(included, limits))
  {
    hide Denotes, FieldsDenote, Plain, ObjectText, FieldsText, ArrayText, GroupNames, IncludeJsons, LimitsText, LimitsJson,
         PrivacyText, ReadLimits, ReadPrivacy, Decimal.Print;
    PolicyNamesPlain();
    NumberDenotes(1);
    IncludeDenotes(included);
    LimitsDenote(limits);
    PrivacyDenotes();
    var f := Last("privacy", PrivacyText());
    var m := [("privacy", PRIVACY_JSON)];
    LastDenotes("privacy", PrivacyText(), PRIVACY_JSON);
    FieldDenotes("limits", LimitsText(limits), LimitsJson(limits), f, m);
    f, m := Field("limits", LimitsText(limits), f), [("limits", LimitsJson(limits))] + m;
    FieldDenotes("include", ArrayText(GroupNames(included)), Arr(IncludeJsons(included)), f, m);
    f, m := Field("include", ArrayText(GroupNames(included)), f), [("include", Arr(IncludeJsons(included)))] + m;
    FieldDenotes("schema_version", Decimal.Print(1), Num(1), f, m);
    f, m := Field("schema_version", Decimal.Print(1), f), [("schema_version", Num(1))] + m;
    ObjectDenotes(f, m);
    assert m == PolicyTree(included, limits).members;
  }

  lemma PolicyReadsBack(included: seq<Group>, limits: Limits)
    ensures ReadPolicy(PolicyText(included, limits)) == Some(Policy(1, included, limits, ALL_OFF))
  {
    hide Denotes, PolicyText, IncludeJsons, LimitsJson, ReadLimits, ReadPrivacy, ReadInclude, Read;
    PolicyDenotes(included, limits);
    DenotesText(PolicyText(included, limits), PolicyTree(included, limits));
    IncludeReadsBack(included);
    LimitsDenote(limits);
    PrivacyDenotes();
  }

  function Place(g: Group): nat {
    match g case CodeMapGroup => 0 case ChangedFilesGroup => 1 case TestsGroup => 2 case EvidenceRefsGroup => 3
  }

  /** The same groups, each once, in the fixed order. */
  ghost predicate InOrder(groups: seq<Group>, included: seq<Group>) {
    && (forall g :: g in groups <==> g in included)
    && forall i, j :: 0 <= i < j < |groups| ==> Place(groups[i]) < Place(groups[j])
  }

  lemma {:induction false} CanonicalKeeps(included: seq<Group>, groups: seq<Group>)
    requires forall i, j :: 0 <= i < j < |groups| ==> Place(groups[i]) < Place(groups[j])
    ensures
      var c := Canonical(included, groups);
      && (forall g :: g in c <==> g in included && g in groups)
      && forall i, j :: 0 <= i < j < |c| ==> Place(c[i]) < Place(c[j])
    decreases |groups|
  {
    if groups != [] {
      CanonicalKeeps(included, groups[1..]);
      var rest := Canonical(included, groups[1..]);
      assert groups == [groups[0]] + groups[1..];
      forall j | 0 <= j < |rest|
        ensures Place(groups[0]) < Place(rest[j])
      {
        assert rest[j] in groups[1..];
      }
    }
  }

  lemma CanonicalInOrder(included: seq<Group>)
    ensures InOrder(Canonical(included, ALL_GROUPS), included)
  {
    CanonicalKeeps(included, ALL_GROUPS);
    forall g: Group
      ensures g in ALL_GROUPS
    {
      assert ALL_GROUPS[Place(g)] == g;
    }
  }

  /** The fingerprint of a built pack is the digest of a text from which the policy can be read back:
      its groups in the fixed order, its limits, and all privacy switches off. */
  lemma FingerprintReadsBack(w: World, policies: map<string, Policy>, packId: string, input: Input)
    requires Build(w, policies, packId, input).Some?
    ensures
      exists text ::
        && Build(w, policies, packId, input).value.fingerprint == w.hash(text)
        && ReadPolicy(text).Some? && InOrder(ReadPolicy(text).value.included, policies[packId].included)
        && ReadPolicy(text).value == policies[packId].(included := ReadPolicy(text).value.included)
  {
    hide Acceptable, IsContextPackId, Serialize, Select, PolicyText, InOrder, Canonical, ReadPolicy;
    var policy := policies[packId];
    var included := Canonical(policy.included, ALL_GROUPS);
    var text := PolicyText(included, policy.limits);
    PolicyReadsBack(included, policy.limits);
    CanonicalInOrder(policy.included);
    var p := Untrimmed(w, policies, packId, input).value;
    var k := TrimFindsFirstFit(p);
    RemovedHeader(p, k);
    assert Build(w, policies, packId, input).value.fingerprint == w.hash(text);
    assert ReadPolicy(text).value == policy.(included := included);
  }

  /** Before trimming, the groups the policy names get their shares greedily and the others nothing. */
  lemma UntrimmedIsGreedy(w: World, policies: map<string, Policy>, packId: string, input: Input)
    requires Untrimmed(w, policies, packId, input).Some?
    ensures
      var (p, policy) := (Untrimmed(w, policies, packId, input).value, policies[packId]);
      Accounted(p, input) && p.omissions.omittedByBytes == 0 && Greedy(policy.included, policy.limits, p.groups, p.omissions)
  {
    hide Acceptable, IsContextPackId, Select, PolicyText, Canonical, Accounted;
    var (included, limits, fingerprint) := NormalizePolicy(w, policies[packId]).value;
    SelectionIsGreedy(included, limits, input);
    SelectionAccounted(packId, included, limits, fingerprint, input);
    CanonicalInOrder(policies[packId].included);
  }

  // ----- what the identifiers are, character by character -----

  /** Lower-case letters, digits and single hyphens inside, starting with a letter, at most 64. */
  ghost predicate PackIdShape(s: string) {
    && 1 <= |s| <= 64 && 'a' <= s[0] <= 'z' && s[|s| - 1] != '-'
    && (forall i :: 0 <= i < |s| ==> 'a' <= s[i] <= 'z' || '0' <= s[i] <= '9' || s[i] == '-')
    && forall i :: 0 <= i < |s| - 1 ==> s[i] != '-' || s[i + 1] != '-'
  }

  predicate Alnum(part: string) {
    forall j :: 0 <= j < |part| ==> LowerAlnum(part[j])
  }

  /** Non-empty pieces of letters and digits, between hyphens. */
  ghost predicate Hyphened(s: string, inside: bool) {
    && (forall i :: 0 <= i < |s| ==> LowerAlnum(s[i]) || s[i] == '-')
    && (s == "" ==> inside) && (s != "" ==> (inside || s[0] != '-') && s[|s| - 1] != '-')
    && forall i :: 0 <= i < |s| - 1 ==> s[i] != '-' || s[i + 1] != '-'
  }

  ghost predicate PartsOk(parts: seq<string>, inside: bool) {
    && (forall i :: 0 <= i < |parts| ==> Alnum(parts[i]))
    && (forall i :: (if inside then 1 else 0) <= i < |parts| ==> parts[i] != "")
  }

  lemma HyphenedStep(s: string, inside: bool)
    requires s != ""
    ensures Hyphened(s, inside) <==>
      if s[0] == '-' then inside && Hyphened(s[1..], false) else LowerAlnum(s[0]) && Hyphened(s[1..], true)
  {
    var t := s[1..];
    assert forall i :: 0 <= i < |t| ==> t[i] == s[i + 1];
    assert forall i :: 1 <= i < |s| ==> s[i] == t[i - 1];
    if |t| > 0 { assert t[|t| - 1] == s[|s| - 1]; }
  }

  lemma PartsAtHyphen(rest: seq<string>, inside: bool)
    requires rest != []
    ensures PartsOk([""] + rest, inside) <==> inside && PartsOk(rest, false)
  {
    hide Alnum;
    var all := [""] + rest;
    assert Alnum("") by { NoChars(); }
    assert all[0] == "" && forall i :: 0 <= i < |rest| ==> all[i + 1] == rest[i];
    assert forall i :: 1 <= i < |all| ==> all[i] == rest[i - 1];
  }

  lemma NoChars()
    ensures Alnum("")
  {
  }

  lemma PartsAtCharacter(rest: seq<string>, c: char, inside: bool)
    requires rest != []
    ensures PartsOk([[c] + rest[0]] + rest[1..], inside) <==> LowerAlnum(c) && PartsOk(rest, true)
  {
    hide Alnum, LowerAlnum;
    var all := [[c] + rest[0]] + rest[1..];
    AlnumCons(c, rest[0]);
    assert all[0] == [c] + rest[0] && forall i :: 1 <= i < |rest| ==> all[i] == rest[i];
  }

  lemma AlnumCons(c: char, part: string)
    ensures Alnum([c] + part) <==> LowerAlnum(c) && Alnum(part)
  {
    assert forall j :: 0 <= j < |part| ==> ([c] + part)[j + 1] == part[j];
    assert ([c] + part)[0] == c;
  }

  lemma {:induction false} HyphenedIff(s: string, sep: char -> bool, inside: bool)
    requires forall c :: sep(c) <==> c == '-'
    ensures PartsOk(SplitWhere(s, sep), inside) <==> Hyphened(s, inside)
    decreases |s|
  {
    hide PartsOk, Hyphened;
    if s == "" {
      NoParts(inside);
    } else {
      var rest := SplitWhere(s[1..], sep);
      HyphenedIff(s[1..], sep, s[0] != '-');
      HyphenedStep(s, inside);
      PartsAtHyphen(rest, inside);
      PartsAtCharacter(rest, s[0], inside);
    }
  }

  lemma NoParts(inside: bool)
    ensures PartsOk([""], inside) <==> Hyphened("", inside)
  {
    assert Alnum("");
    assert [""][0] == "";
  }

  lemma PackIdIff(s: string)
    ensures IsContextPackId(s) <==> PackIdShape(s)
  {
    hide SplitWhere;
    var parts := Split(s, '-');
    HyphenedIff(s, c => c == '-', false);
    assert PartsOk(parts, false) <==>
      (forall i :: 0 <= i < |parts| ==> parts[i] != "") && (forall i, j :: 0 <= i < |parts| && 0 <= j < |parts[i]| ==> LowerAlnum(parts[i][j]));
    assert PartsOk(parts, false) <==> Hyphened(s, false) by { SplitHyphened(s); }
  }

  lemma SplitHyphened(s: string)
    ensures PartsOk(Split(s, '-'), false) <==> Hyphened(s, false)
  {
    HyphenedIff(s, c => c == '-', false);
  }

  /** One segment of a test identifier. */
  ghost predicate Segment(part: string) {
    part != "" && LowerAlnum(part[0]) && Inner(part)
  }

  predicate Inner(part: string) {
    forall i :: 0 <= i < |part| ==> LowerAlnum(part[i]) || part[i] == '.' || part[i] == '_' || part[i] == '-'
  }

  function WithColons(parts: seq<string>): string {
    if parts == [] then "" else "::" + (parts[0] + WithColons(parts[1..]))
  }

  ghost predicate Segments(s: string, first: string, others: seq<string>) {
    s == first + WithColons(others) && Inner(first) && forall i :: 0 <= i < |others| ==> Segment(others[i])
  }

  lemma {:induction false} InnerAccepted(part: string, rest: string)
    requires Inner(part) && TestIdFrom(rest, false)
    ensures TestIdFrom(part + rest, false)
    decreases |part|
  {
    if part == "" {
      assert part + rest == rest;
    } else {
      var all := part + rest;
      assert all[1..] == part[1..] + rest && all[0] == part[0] && part[0] != ':';
      InnerAccepted(part[1..], rest);
    }
  }

  lemma SegmentAccepted(part: string, rest: string)
    requires Segment(part) && TestIdFrom(rest, false)
    ensures TestIdFrom(part + rest, true)
  {
    assert (part + rest)[1..] == part[1..] + rest && (part + rest)[0] == part[0];
    InnerAccepted(part[1..], rest);
  }

  lemma {:induction false} ColonsAccepted(parts: seq<string>)
    requires forall i :: 0 <= i < |parts| ==> Segment(parts[i])
    ensures TestIdFrom(WithColons(parts), false)
    decreases |parts|
  {
    hide Segment;
    if parts != [] {
      ColonsAccepted(parts[1..]);
      SegmentAccepted(parts[0], WithColons(parts[1..]));
      var s := WithColons(parts);
      assert s[2..] == parts[0] + WithColons(parts[1..]);
    }
  }

  lemma SegmentsAtColons(s: string, first: string, others: seq<string>)
    requires "::" <= s && Segments(s[2..], first, others) && Segment(first)
    ensures Segments(s, "", [first] + others)
  {
    hide Segment;
    assert ([first] + others)[1..] == others;
    assert s == "" + ("::" + (first + WithColons(others)));
  }

  lemma SegmentsAtCharacter(s: string, first: string, others: seq<string>)
    requires s != "" && Segments(s[1..], first, others) && (LowerAlnum(s[0]) || s[0] in "._-")
    ensures Segments(s, [s[0]] + first, others) && (LowerAlnum(s[0]) ==> Segment([s[0]] + first))
  {
    hide WithColons;
    var longer := [s[0]] + first;
    assert longer[0] == s[0] && forall i :: 0 <= i < |first| ==> longer[i + 1] == first[i];
    assert s == [s[0]] + s[1..] == longer + WithColons(others);
  }

  lemma {:induction false} AcceptedSegments(s: string, atStart: bool) returns (first: string, others: seq<string>)
    requires TestIdFrom(s, atStart)
    ensures Segments(s, first, others) && (atStart ==> Segment(first))
    decreases |s|
  {
    if s == "" {
      first, others := "", [];
    } else {
      hide Segments, Segment;
      if !atStart && "::" <= s {
        first, others := AcceptedSegments(s[2..], true);
        SegmentsAtColons(s, first, others);
        first, others := "", [first] + others;
      } else {
        first, others := AcceptedSegments(s[1..], false);
        SegmentsAtCharacter(s, first, others);
        first := [s[0]] + first;
      }
    }
  }

  /** A test identifier is one or more segments of letters, digits, dots, underscores and hyphens, each
      starting with a letter or digit, with double colons between them; at most 256 characters. */
  lemma TestIdIff(s: string)
    ensures IsStableTestId(s) <==> |s| <= 256 && exists first, others :: Segments(s, first, others) && Segment(first)
  {
    if exists first, others :: Segments(s, first, others) && Segment(first) {
      var first, others :| Segments(s, first, others) && Segment(first);
      ColonsAccepted(others);
      SegmentAccepted(first, WithColons(others));
    }
    if TestIdFrom(s, true) {
      var first, others := AcceptedSegments(s, true);
    }
  }

  predicate RefLetter(c: char) {
    'a' <= c <= 'z' || '0' <= c <= '9' || c == '.' || c == '_' || c == '-' || c == '/'
  }

  predicate PathLetter(c: char) { 'A' <= c <= 'Z' || RefLetter(c) }

  /** A path: ASCII letters, digits and . _ - / only, no slash at either end, a safe public identity. */
  lemma RepoPathIff(w: World, s: string)
    ensures SafeRepoPath(w, s) <==>
      |s| > 0 && s[0] != '/' && s[|s| - 1] != '/' && (forall c :: c in s ==> PathLetter(c)) && w.safeIdentity(s, s, 240)
  {
    assert (forall c :: c in s ==> PathLetter(c)) <==> forall i :: 0 <= i < |s| ==> PathLetter(s[i]);
    assert forall c :: PathChar(c) <==> PathLetter(c);
  }

  /** One of the three schemes and what follows it. */
  ghost predicate RefParts(w: World, s: string, scheme: string, tail: string) {
    && (scheme == "evidence:" || scheme == "context:" || scheme == "context-packs/") && s == scheme + tail
    && tail != "" && LowerAlnum(tail[0]) && tail[|tail| - 1] != '/' && (forall c :: c in tail ==> RefLetter(c))
    && w.safeIdentity(s, tail, 256)
  }

  predicate NoPair(s: string, c: char) {
    forall i :: 0 <= i < |s| - 1 ==> !(s[i] == c && s[i + 1] == c)
  }

  lemma ContainsPair(s: string, c: char)
    ensures Contains(s, [c, c]) <==> !NoPair(s, c)
  {
    if Contains(s, [c, c]) {
      var i :| 0 <= i <= |s| && [c, c] <= s[i..];
      assert s[i] == s[i..][0] == [c, c][0] && s[i + 1] == s[i..][1] == [c, c][1];
    }
    if i :| 0 <= i < |s| - 1 && s[i] == c && s[i + 1] == c {
      assert s[i..][..2] == [c, c];
    }
  }

  /** An evidence reference: a known scheme, a tail in that alphabet that starts with a letter or digit
      and does not end in a slash, and neither two dots nor two slashes in a row. */
  lemma EvidenceRefIff(w: World, s: string)
    ensures SafeEvidenceRef(w, s) <==>
      NoPair(s, '.') && NoPair(s, '/') && exists scheme, tail :: RefParts(w, s, scheme, tail)
  {
    hide Contains, NoPair, LowerAlnum;
    ContainsPair(s, '.');
    ContainsPair(s, '/');
    assert ['.', '.'] == ".." && ['/', '/'] == "//";
    if RefTail(s).Some? {
      var tail := RefTail(s).value;
      TailAlphabet(tail);
      var scheme := s[..|s| - |tail|];
      assert s == scheme + tail;
      RefSchemes(s);
      assert SafeTail(w, s, tail) <==> RefParts(w, s, scheme, tail);
    }
    forall scheme, tail | RefParts(w, s, scheme, tail)
      ensures RefTail(s) == Some(tail)
    {
      TailOf(s, scheme, tail);
    }
  }

  predicate SafeTail(w: World, s: string, tail: string) {
    && tail != "" && LowerAlnum(tail[0]) && tail[|tail| - 1] != '/'
    && (forall i :: 0 <= i < |tail| ==> RefChar(tail[i]))
    && w.safeIdentity(s, tail, REF_MAX_BYTES)
  }

  lemma TailAlphabet(tail: string)
    ensures (forall c :: c in tail ==> RefLetter(c)) <==> forall i :: 0 <= i < |tail| ==> RefChar(tail[i])
  {
    assert (forall c :: c in tail ==> RefLetter(c)) <==> forall i :: 0 <= i < |tail| ==> RefLetter(tail[i]);
  }

  lemma RefSchemes(s: string)
    requires RefTail(s).Some?
    ensures
      var scheme := s[..|s| - |RefTail(s).value|];
      scheme == "evidence:" || scheme == "context:" || scheme == "context-packs/"
  {
  }

  lemma TailOf(s: string, scheme: string, tail: string)
    requires (scheme == "evidence:" || scheme == "context:" || scheme == "context-packs/") && s == scheme + tail
    ensures RefTail(s) == Some(tail)
  {
    assert s[|scheme|..] == tail && scheme <= s;
    if scheme == "context-packs/" {
      assert s[7] == '-' && s[0] == 'c';
    } else if scheme == "context:" {
      assert s[0] == 'c';
    }
  }

  /** A policy is accepted exactly within these bounds, naming each group once, with all privacy
      switches off. */
  lemma PolicyAcceptedIff(w: World, p: Policy)
    ensures NormalizePolicy(w, p).Some? <==>
      && p.schemaVersion == 1 && |p.included| > 0 && (forall g :: multiset(p.included)[g] <= 1)
      && 1 <= p.limits.maxFiles <= 1000 && 1 <= p.limits.maxBytes <= 1048576 && 1 <= p.limits.maxEvidenceRefs <= 500
      && !p.privacy.rawTranscript && !p.privacy.promptBodies && !p.privacy.secrets && !p.privacy.privateLocalPaths
  {
    NoDuplicatesByCount(p.included);
  }

  lemma PrefixesDistinct<T>(all: seq<T>, n: nat, k: nat, l: nat)
    requires NoDuplicates(all) && k <= n <= |all| && n + l <= |all|
    ensures NoDuplicates(all[..k] + all[n..n + l])
  {
    var some := all[..k] + all[n..n + l];
    forall i, j | 0 <= i < j < |some|
      ensures some[i] != some[j]
    {
      var a := if i < k then i else n + (i - k);
      var b := if j < k then j else n + (j - k);
      assert some[i] == all[a] && some[j] == all[b] && a < b;
    }
  }

  lemma KeptDistinct<T(!new)>(f: Entry -> T, kept: seq<Entry>, group: seq<Entry>)
    requires NoDuplicates(Map(f, group)) && kept <= Sort(group)
    ensures NoDuplicates(Map(f, kept))
  {
    hide NoDuplicates, Sort;
    SortSorts(group);
    RearrangedKeysDistinct(f, group, Sort(group));
    var all := Map(f, Sort(group));
    PrefixesDistinct(all, |kept|, |kept|, 0);
    assert Map(f, kept) == all[..|kept|] + all[|kept|..|kept| + 0];
  }

  lemma KeptTogetherDistinct<T(!new)>(f: Entry -> T, kept: seq<Entry>, group: seq<Entry>, kept': seq<Entry>, group': seq<Entry>)
    requires NoDuplicates(Map(f, group + group')) && kept <= Sort(group) && kept' <= Sort(group')
    ensures NoDuplicates(Map(f, kept + kept'))
  {
    hide NoDuplicates, Sort;
    SortSorts(group);
    SortSorts(group');
    RearrangedKeysDistinct(f, group + group', Sort(group) + Sort(group'));
    var n := |Sort(group)|;
    var all := Map(f, Sort(group) + Sort(group'));
    PrefixesDistinct(all, n, |kept|, |kept'|);
    assert Map(f, kept + kept') == all[..|kept|] + all[n..n + |kept'|];
  }

  /** In every built pack no two entries of a group name the same thing: paths and references by their
      canonical keys, references of tests and evidence together, tests by identifier too. */
  lemma BuiltPackDistinct(w: World, policies: map<string, Policy>, packId: string, input: Input)
    requires Build(w, policies, packId, input).Some?
    ensures
      var g := Build(w, policies, packId, input).value.groups;
      && NoDuplicates(Keys(w, g.codeMap)) && NoDuplicates(Keys(w, g.changedFiles))
      && NoDuplicates(Map(IdOf, g.tests)) && NoDuplicates(Keys(w, g.tests + g.evidenceRefs))
  {
    hide IsContextPackId, Serialize, Select, EntryOk, NoDuplicates, NormalizePolicy, Sort;
    BuiltPackAccounted(w, policies, packId, input);
    var g := Build(w, policies, packId, input).value.groups;
    var key := e => EntryKey(w, e);
    KeptDistinct(key, g.codeMap, input.codeMap);
    KeptDistinct(key, g.changedFiles, input.changedFiles);
    KeptDistinct(IdOf, g.tests, input.tests);
    KeptTogetherDistinct(key, g.tests, input.tests, g.evidenceRefs, input.evidenceRefs);
  }

  // ----- order of the inputs -----

  ghost predicate Rearranged(a: Input, b: Input) {
    && a.schemaVersion == b.schemaVersion && a.sourceHead == b.sourceHead
    && multiset(a.codeMap) == multiset(b.codeMap) && multiset(a.changedFiles) == multiset(b.changedFiles)
    && multiset(a.tests) == multiset(b.tests) && multiset(a.evidenceRefs) == multiset(b.evidenceRefs)
  }

  lemma NoDuplicatesByCount<T(!new)>(s: seq<T>)
    ensures NoDuplicates(s) <==> forall x :: multiset(s)[x] <= 1
    decreases |s|
  {
    if s == [] {
      assert forall x :: multiset(s)[x] == 0;
    } else {
      var m := |s| - 1;
      NoDuplicatesByCount(s[..m]);
      NoDuplicatesSnoc(s[..m], s[m]);
      assert s == s[..m] + [s[m]];
      assert forall x :: multiset(s)[x] == multiset(s[..m])[x] + (if x == s[m] then 1 else 0);
      assert s[m] in s[..m] <==> multiset(s[..m])[s[m]] > 0;
      assert multiset(s)[s[m]] <= 1 ==> s[m] !in s[..m];
    }
  }

  lemma MapAppend<T>(f: Entry -> T, a: seq<Entry>, b: seq<Entry>)
    ensures Map(f, a + b) == Map(f, a) + Map(f, b)
  {
  }

  lemma MapWithout<T>(f: Entry -> T, a: seq<Entry>, e: Entry, b: seq<Entry>)
    ensures multiset(a + [e] + b) == multiset(a + b) + multiset{e}
    ensures multiset(Map(f, a + [e] + b)) == multiset(Map(f, a + b)) + multiset{f(e)}
  {
    MapAppend(f, a, b);
    MapAppend(f, a + [e], b);
    MapAppend(f, a, [e]);
    assert Map(f, [e]) == [f(e)];
  }

  lemma CancelOne<T>(a: multiset<T>, b: multiset<T>, x: T)
    requires a + multiset{x} == b + multiset{x}
    ensures a == b
  {
    assert a == (a + multiset{x}) - multiset{x};
    assert b == (b + multiset{x}) - multiset{x};
  }

  lemma {:induction false} MapPreservesMultiset<T>(f: Entry -> T, a: seq<Entry>, b: seq<Entry>)
    requires multiset(a) == multiset(b)
    ensures multiset(Map(f, a)) == multiset(Map(f, b))
    decreases |a|
  {
    hide Map;
    assert |multiset(a)| == |a| && |multiset(b)| == |b|;
    if a == [] {
      assert b == [];
    } else {
      var e := a[0];
      assert e in multiset(b);
      var j :| 0 <= j < |b| && b[j] == e;
      var front, back := b[..j], b[j + 1..];
      assert a == [] + [e] + a[1..] && b == front + [e] + back;
      MapWithout(f, [], e, a[1..]);
      MapWithout(f, front, e, back);
      assert [] + a[1..] == a[1..];
      CancelOne(multiset(a[1..]), multiset(front + back), e);
      MapPreservesMultiset(f, a[1..], front + back);
    }
  }

  lemma RearrangedKeysDistinct<T(!new)>(f: Entry -> T, a: seq<Entry>, b: seq<Entry>)
    requires multiset(a) == multiset(b)
    ensures NoDuplicates(Map(f, a)) <==> NoDuplicates(Map(f, b))
  {
    hide NoDuplicates;
    MapPreservesMultiset(f, a, b);
    NoDuplicatesByCount(Map(f, a));
    NoDuplicatesByCount(Map(f, b));
  }

  lemma RearrangedAllOk(w: World, a: seq<Entry>, b: seq<Entry>)
    requires multiset(a) == multiset(b) && AllOk(w, a)
    ensures AllOk(w, b)
  {
    hide EntryOk;
    forall i | 0 <= i < |b|
      ensures EntryOk(w, b[i])
    {
      assert b[i] in multiset(b);
      var j :| 0 <= j < |a| && a[j] == b[i];
    }
  }

  lemma RearrangedAcceptable(w: World, a: Input, b: Input)
    requires Rearranged(a, b) && Acceptable(w, a)
    ensures Acceptable(w, b)
  {
    hide EntryOk, NoDuplicates, LowerHex;
    RearrangedAllOk(w, a.codeMap, b.codeMap);
    RearrangedAllOk(w, a.changedFiles, b.changedFiles);
    RearrangedAllOk(w, a.tests, b.tests);
    RearrangedAllOk(w, a.evidenceRefs, b.evidenceRefs);
    var key := e => EntryKey(w, e);
    RearrangedKeysDistinct(key, a.codeMap, b.codeMap);
    RearrangedKeysDistinct(key, a.changedFiles, b.changedFiles);
    RearrangedKeysDistinct(IdOf, a.tests, b.tests);
    RearrangedKeysDistinct(key, a.tests + a.evidenceRefs, b.tests + b.evidenceRefs);
  }

  /** The canonical include list depends on the set of groups only. */
  lemma {:induction false} CanonicalBySet(a: seq<Group>, b: seq<Group>, groups: seq<Group>)
    requires multiset(a) == multiset(b)
    ensures Canonical(a, groups) == Canonical(b, groups)
    decreases |groups|
  {
    if groups != [] {
      assert groups[0] in a <==> groups[0] in multiset(a);
      assert groups[0] in b <==> groups[0] in multiset(b);
      CanonicalBySet(a, b, groups[1..]);
    }
  }

  lemma RearrangedSelection(included: seq<Group>, limits: Limits, a: Input, b: Input)
    requires Rearranged(a, b)
    ensures Select(included, limits, a) == Select(included, limits, b)
  {
    hide Sort;
    SortIsCanonical(a.codeMap, b.codeMap);
    SortIsCanonical(a.changedFiles, b.changedFiles);
    SortIsCanonical(a.tests, b.tests);
    SortIsCanonical(a.evidenceRefs, b.evidenceRefs);
  }

  lemma ReorderedPolicy(w: World, policy: Policy, included: seq<Group>)
    requires multiset(included) == multiset(policy.included)
    ensures NormalizePolicy(w, policy.(included := included)) == NormalizePolicy(w, policy)
  {
    hide NoDuplicates, PolicyText, Canonical;
    CanonicalBySet(policy.included, included, ALL_GROUPS);
    NoDuplicatesByCount(policy.included);
    NoDuplicatesByCount(included);
    assert |multiset(included)| == |included| && |multiset(policy.included)| == |policy.included|;
  }

  /** Reordering the input lists or the policy's include list gives the identical pack. */
  lemma OrderIrrelevant(w: World, policies: map<string, Policy>, packId: string, a: Input, b: Input, included: seq<Group>)
    requires Rearranged(a, b) && packId in policies && multiset(included) == multiset(policies[packId].included)
    ensures
      var reordered := policies[packId := policies[packId].(included := included)];
      Build(w, policies, packId, a) == Build(w, reordered, packId, b)
  {
    hide Trimmed, IsContextPackId, Acceptable, NormalizePolicy, Select;
    if Acceptable(w, a) { RearrangedAcceptable(w, a, b); }
    if Acceptable(w, b) { RearrangedAcceptable(w, b, a); }
    ReorderedPolicy(w, policies[packId], included);
    if NormalizePolicy(w, policies[packId]).Some? {
      var (groups, limits, _) := NormalizePolicy(w, policies[packId]).value;
      RearrangedSelection(groups, limits, a, b);
    }
  }
}
