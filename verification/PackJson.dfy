/** The JSON text of a context pack, byte for byte, and how long it is (core/src/context_pack.rs).

All strings of an accepted pack are printable ASCII without quotes or backslashes, so
they are written between quotes as they are. */
module PackJson {
  import Decimal
  import opened Json
  import opened PackOrder
  import opened Text

  datatype Limits = Limits(maxFiles: nat, maxBytes: nat, maxEvidenceRefs: nat)

  datatype Groups = Groups(codeMap: seq<Entry>, changedFiles: seq<Entry>, tests: seq<Entry>, evidenceRefs: seq<Entry>)
  {
    function Count(): nat { |codeMap| + |changedFiles| + |tests| + |evidenceRefs| }
  }

  datatype Omissions = Omissions(codeMap: nat, changedFiles: nat, tests: nat, evidenceRefs: nat, omittedByBytes: nat)

  datatype Pack = Pack(
    packId: string,
    sourceHead: string,
    fingerprint: string,
    limits: Limits,
    groups: Groups,
    omissions: Omissions)

  function StatusText(s: ChangeStatus): string {
    match s case Added => "added" case Modified => "modified" case Deleted => "deleted" case Renamed => "renamed"
  }

  function OutcomeText(o: TestOutcome): string {
    match o case Passed => "passed" case Failed => "failed" case Blocked => "blocked" case NotApplicable => "not_applicable"
  }

  function EntryText(e: Entry): string {
    match e
    case CodeMap(path, sha256) => ObjectText(Field("path", Quoted(path), Last("content_sha256", Quoted(sha256))))
    case Changed(path, status, sha256) =>
      ObjectText(Field("path", Quoted(path), Field("status", Quoted(StatusText(status)), Last("content_sha256", Quoted(sha256)))))
    case Test(testId, outcome, evidenceRef) =>
      ObjectText(Field("test_id", Quoted(testId),
                       Field("outcome", Quoted(OutcomeText(outcome)), Last("evidence_ref", Quoted(evidenceRef)))))
    case Evidence(ref) => Quoted(ref)
  }

  function Texts(entries: seq<Entry>): (texts: seq<string>)
    ensures |texts| == |entries|
  {
    seq(|entries|, i requires 0 <= i < |entries| => EntryText(entries[i]))
  }

  function ListText(entries: seq<Entry>): string { ArrayText(Texts(entries)) }

  function LimitsText(l: Limits): string {
    ObjectText(
      Field("max_files", Decimal.Print(l.maxFiles),
            Field("max_bytes", Decimal.Print(l.maxBytes), Last("max_evidence_refs", Decimal.Print(l.maxEvidenceRefs)))))
  }

  function GroupsText(g: Groups): string {
    ObjectText(
      Field("code_map", ListText(g.codeMap),
            Field("changed_files", ListText(g.changedFiles),
                  Field("tests", ListText(g.tests), Last("evidence_refs", ListText(g.evidenceRefs))))))
  }

  function OmissionsText(o: Omissions): string {
    ObjectText(
      Field("code_map", Decimal.Print(o.codeMap),
            Field("changed_files", Decimal.Print(o.changedFiles),
                  Field("tests", Decimal.Print(o.tests),
                        Field("evidence_refs", Decimal.Print(o.evidenceRefs),
                              Last("omitted_by_bytes", Decimal.Print(o.omittedByBytes)))))))
  }

  function Serialize(p: Pack): string {
    ObjectText(
      Field("schema_version", Decimal.Print(1),
            Field("pack_id", Quoted(p.packId),
                  Field("source_head", Quoted(p.sourceHead),
                        Field("policy_fingerprint", Quoted(p.fingerprint),
                              Field("limits", LimitsText(p.limits),
                                    Field("groups", GroupsText(p.groups),
                                          Field("omissions", OmissionsText(p.omissions),
                                                Last("privacy_result", Quoted("pass"))))))))))
  }

  // ----- reading the text of a pack -----

  function ReadStatus(s: string): Option<ChangeStatus> {
    match s
    case "added" => Some(Added)
    case "modified" => Some(Modified)
    case "deleted" => Some(Deleted)
    case "renamed" => Some(Renamed)
    case _ => None
  }

  function ReadOutcome(s: string): Option<TestOutcome> {
    match s
    case "passed" => Some(Passed)
    case "failed" => Some(Failed)
    case "blocked" => Some(Blocked)
    case "not_applicable" => Some(NotApplicable)
    case _ => None
  }

  /** An entry, recognised by the names of its members. */
  function ReadEntry(j: Json): Option<Entry> {
    match j
    case Str(ref) => Some(Evidence(ref))
    case Obj(ms) =>
      if exists i :: 0 <= i < |ms| && !ms[i].1.Str? then None
      else if Named(ms, ["path", "content_sha256"]) then Some(CodeMap(ms[0].1.text, ms[1].1.text))
      else if Named(ms, ["path", "status", "content_sha256"]) then
        var status := ReadStatus(ms[1].1.text);
        if status.None? then None else Some(Changed(ms[0].1.text, status.value, ms[2].1.text))
      else if Named(ms, ["test_id", "outcome", "evidence_ref"]) then
        var outcome := ReadOutcome(ms[1].1.text);
        if outcome.None? then None else Some(Test(ms[0].1.text, outcome.value, ms[2].1.text))
      else None
    case _ => None
  }

  function ReadEntries(js: seq<Json>): Option<seq<Entry>> {
    if js == [] then Some([])
    else
      match (ReadEntry(js[0]), ReadEntries(js[1..]))
      case (Some(e), Some(rest)) => Some([e] + rest)
      case _ => None
  }

  function ReadList(j: Json): Option<seq<Entry>> {
    if j.Arr? then ReadEntries(j.items) else None
  }

  function ReadLimits(j: Json): Option<Limits> {
    if j.Obj? && Named(j.members, ["max_files", "max_bytes", "max_evidence_refs"])
       && j.members[0].1.Num? && j.members[1].1.Num? && j.members[2].1.Num?
    then Some(Limits(j.members[0].1.number, j.members[1].1.number, j.members[2].1.number))
    else None
  }

  function ReadGroups(j: Json): Option<Groups> {
    if j.Obj? && Named(j.members, ["code_map", "changed_files", "tests", "evidence_refs"]) then
      match (ReadList(j.members[0].1), ReadList(j.members[1].1), ReadList(j.members[2].1), ReadList(j.members[3].1))
      case (Some(code), Some(changed), Some(tests), Some(refs)) => Some(Groups(code, changed, tests, refs))
      case _ => None
    else None
  }

  function ReadOmissions(j: Json): Option<Omissions> {
    if j.Obj? && Named(j.members, ["code_map", "changed_files", "tests", "evidence_refs", "omitted_by_bytes"])
       && (forall i :: 0 <= i < |j.members| ==> j.members[i].1.Num?)
    then
      Some(Omissions(j.members[0].1.number, j.members[1].1.number, j.members[2].1.number, j.members[3].1.number,
                     j.members[4].1.number))
    else None
  }

  const PACK_NAMES: seq<string> :=
    ["schema_version", "pack_id", "source_head", "policy_fingerprint", "limits", "groups", "omissions", "privacy_result"]

  /** A pack from its text: every member under its name, of version 1, with a passed privacy check. */
  function ReadPack(text: string): Option<Pack> {
    match Read(text)
    case Some(Obj(ms)) =>
      if Named(ms, PACK_NAMES) && ms[0].1 == Num(1) && ms[1].1.Str? && ms[2].1.Str? && ms[3].1.Str? && ms[7].1 == Str("pass") then
        match (ReadLimits(ms[4].1), ReadGroups(ms[5].1), ReadOmissions(ms[6].1))
        case (Some(limits), Some(groups), Some(omissions)) =>
          Some(Pack(ms[1].1.text, ms[2].1.text, ms[3].1.text, limits, groups, omissions))
        case _ => None
      else None
    case _ => None
  }

  // ----- what is written is read back -----

  function Strings(e: Entry): seq<string> {
    match e
    case CodeMap(path, sha256) => [path, sha256]
    case Changed(path, _, sha256) => [path, sha256]
    case Test(testId, _, evidenceRef) => [testId, evidenceRef]
    case Evidence(ref) => [ref]
  }

  ghost predicate EntryPlain(e: Entry) {
    forall k :: 0 <= k < |Strings(e)| ==> Plain(Strings(e)[k])
  }

  ghost predicate EntriesPlain(entries: seq<Entry>) {
    forall i :: 0 <= i < |entries| ==> EntryPlain(entries[i])
  }

  /** Every string of the pack stands between quotes as it is. */
  ghost predicate AllPlain(p: Pack) {
    && Plain(p.packId) && Plain(p.sourceHead) && Plain(p.fingerprint)
    && EntriesPlain(p.groups.codeMap) && EntriesPlain(p.groups.changedFiles)
    && EntriesPlain(p.groups.tests) && EntriesPlain(p.groups.evidenceRefs)
  }

  function EntryJson(e: Entry): Json {
    match e
    case CodeMap(path, sha256) => Obj([("path", Str(path)), ("content_sha256", Str(sha256))])
    case Changed(path, status, sha256) =>
      Obj([("path", Str(path)), ("status", Str(StatusText(status))), ("content_sha256", Str(sha256))])
    case Test(testId, outcome, evidenceRef) =>
      Obj([("test_id", Str(testId)), ("outcome", Str(OutcomeText(outcome))), ("evidence_ref", Str(evidenceRef))])
    case Evidence(ref) => Str(ref)
  }

  function Jsons(entries: seq<Entry>): (js: seq<Json>)
    ensures |js| == |entries|
  {
    seq(|entries|, i requires 0 <= i < |entries| => EntryJson(entries[i]))
  }

  lemma EntryNamesPlain()
    ensures Plain("path") && Plain("content_sha256") && Plain("status")
    ensures Plain("test_id") && Plain("outcome") && Plain("evidence_ref")
  {
  }

  lemma WordsPlain(s: ChangeStatus, o: TestOutcome)
    ensures Plain(StatusText(s)) && Plain(OutcomeText(o))
  {
  }

  lemma GroupNamesPlain()
    ensures Plain("code_map") && Plain("changed_files") && Plain("tests") && Plain("evidence_refs") && Plain("omitted_by_bytes")
    ensures Plain("max_files") && Plain("max_bytes") && Plain("max_evidence_refs")
  {
  }

  lemma PackNamesPlain()
    ensures Plain("schema_version") && Plain("pack_id") && Plain("source_head") && Plain("policy_fingerprint")
    ensures Plain("limits") && Plain("groups") && Plain("omissions") && Plain("privacy_result") && Plain("pass")
  {
  }

  lemma TwoStrings(a: string, x: string, b: string, y: string)
    requires Plain(a) && Plain(x) && Plain(b) && Plain(y)
    ensures Denotes(ObjectText(Field(a, Quoted(x), Last(b, Quoted(y)))), Obj([(a, Str(x)), (b, Str(y))]))
  {
    hide Denotes, FieldsDenote, Plain, ObjectText, FieldsText, Quoted;
    StringDenotes(x);
    StringDenotes(y);
    LastDenotes(b, Quoted(y), Str(y));
    FieldDenotes(a, Quoted(x), Str(x), Last(b, Quoted(y)), [(b, Str(y))]);
    assert [(a, Str(x))] + [(b, Str(y))] == [(a, Str(x)), (b, Str(y))];
    ObjectDenotes(Field(a, Quoted(x), Last(b, Quoted(y))), [(a, Str(x)), (b, Str(y))]);
  }

  lemma ThreeStrings(a: string, x: string, b: string, y: string, c: string, z: string)
    requires Plain(a) && Plain(x) && Plain(b) && Plain(y) && Plain(c) && Plain(z)
    ensures Denotes(ObjectText(Field(a, Quoted(x), Field(b, Quoted(y), Last(c, Quoted(z))))),
                    Obj([(a, Str(x)), (b, Str(y)), (c, Str(z))]))
  {
    hide Denotes, FieldsDenote, Plain, ObjectText, FieldsText, Quoted;
    StringDenotes(x);
    StringDenotes(y);
    StringDenotes(z);
    var f := Last(c, Quoted(z));
    LastDenotes(c, Quoted(z), Str(z));
    FieldDenotes(b, Quoted(y), Str(y), f, [(c, Str(z))]);
    FieldDenotes(a, Quoted(x), Str(x), Field(b, Quoted(y), f), [(b, Str(y))] + [(c, Str(z))]);
    var ms := [(a, Str(x))] + ([(b, Str(y))] + [(c, Str(z))]);
    assert ms == [(a, Str(x)), (b, Str(y)), (c, Str(z))];
    ObjectDenotes(Field(a, Quoted(x), Field(b, Quoted(y), f)), ms);
  }

  lemma EntryDenotes(e: Entry)
    requires EntryPlain(e)
    ensures Denotes(EntryText(e), EntryJson(e))
  {
    hide Denotes, Plain, ObjectText, FieldsText, Quoted;
    EntryNamesPlain();
    forall k | 0 <= k < |Strings(e)|
      ensures Plain(Strings(e)[k])
    {
    }
    match e {
      case CodeMap(path, sha256) =>
        assert Strings(e)[0] == path && Strings(e)[1] == sha256;
        TwoStrings("path", path, "content_sha256", sha256);
      case Changed(path, status, sha256) =>
        assert Strings(e)[0] == path && Strings(e)[1] == sha256;
        WordsPlain(status, Passed);
        ThreeStrings("path", path, "status", StatusText(status), "content_sha256", sha256);
      case Test(testId, outcome, evidenceRef) =>
        assert Strings(e)[0] == testId && Strings(e)[1] == evidenceRef;
        WordsPlain(Added, outcome);
        ThreeStrings("test_id", testId, "outcome", OutcomeText(outcome), "evidence_ref", evidenceRef);
      case Evidence(ref) =>
        assert Strings(e)[0] == ref;
        StringDenotes(ref);
    }
  }

  lemma EntryReadsBack(e: Entry)
    ensures ReadEntry(EntryJson(e)) == Some(e)
  {
  }

  lemma {:induction false} EntriesReadBack(entries: seq<Entry>)
    ensures ReadEntries(Jsons(entries)) == Some(entries)
    decreases |entries|
  {
    hide ReadEntry, EntryJson;
    if entries != [] {
      EntryReadsBack(entries[0]);
      EntriesReadBack(entries[1..]);
      assert Jsons(entries)[1..] == Jsons(entries[1..]);
      assert entries == [entries[0]] + entries[1..];
    }
  }

  lemma ListDenotes(entries: seq<Entry>)
    requires EntriesPlain(entries)
    ensures Denotes(ListText(entries), Arr(Jsons(entries)))
    ensures ReadList(Arr(Jsons(entries))) == Some(entries)
  {
    hide Denotes, EntryText, EntryJson, ArrayText, EntryPlain, ReadEntries;
    forall i | 0 <= i < |entries|
      ensures Denotes(Texts(entries)[i], Jsons(entries)[i])
    {
      EntryDenotes(entries[i]);
    }
    ArrayDenotes(Texts(entries), Jsons(entries));
    EntriesReadBack(entries);
  }

  function LimitsJson(l: Limits): Json {
    Obj([("max_files", Num(l.maxFiles)), ("max_bytes", Num(l.maxBytes)), ("max_evidence_refs", Num(l.maxEvidenceRefs))])
  }

  lemma LimitsDenote(l: Limits)
    ensures Denotes(LimitsText(l), LimitsJson(l)) && ReadLimits(LimitsJson(l)) == Some(l)
  {
    hide Denotes, FieldsDenote, Plain, ObjectText, FieldsText, Decimal.Print;
    GroupNamesPlain();
    NumberDenotes(l.maxFiles);
    NumberDenotes(l.maxBytes);
    NumberDenotes(l.maxEvidenceRefs);
    var f := Last("max_evidence_refs", Decimal.Print(l.maxEvidenceRefs));
    var m := [("max_evidence_refs", Num(l.maxEvidenceRefs))];
    LastDenotes("max_evidence_refs", Decimal.Print(l.maxEvidenceRefs), Num(l.maxEvidenceRefs));
    FieldDenotes("max_bytes", Decimal.Print(l.maxBytes), Num(l.maxBytes), f, m);
    f, m := Field("max_bytes", Decimal.Print(l.maxBytes), f), [("max_bytes", Num(l.maxBytes))] + m;
    FieldDenotes("max_files", Decimal.Print(l.maxFiles), Num(l.maxFiles), f, m);
    f, m := Field("max_files", Decimal.Print(l.maxFiles), f), [("max_files", Num(l.maxFiles))] + m;
    ObjectDenotes(f, m);
    assert m == LimitsJson(l).members;
  }

  function GroupsJson(g: Groups): Json {
    Obj([("code_map", Arr(Jsons(g.codeMap))), ("changed_files", Arr(Jsons(g.changedFiles))), ("tests", Arr(Jsons(g.tests))),
         ("evidence_refs", Arr(Jsons(g.evidenceRefs)))])
  }

  lemma GroupsDenote(g: Groups)
    requires EntriesPlain(g.codeMap) && EntriesPlain(g.changedFiles) && EntriesPlain(g.tests) && EntriesPlain(g.evidenceRefs)
    ensures Denotes(GroupsText(g), GroupsJson(g)) && ReadGroups(GroupsJson(g)) == Some(g)
  {
    hide Denotes, FieldsDenote, Plain, ObjectText, FieldsText, ListText, Jsons, EntriesPlain, ReadList;
    GroupNamesPlain();
    ListDenotes(g.codeMap);
    ListDenotes(g.changedFiles);
    ListDenotes(g.tests);
    ListDenotes(g.evidenceRefs);
    var f := Last("evidence_refs", ListText(g.evidenceRefs));
    var m := [("evidence_refs", Arr(Jsons(g.evidenceRefs)))];
    LastDenotes("evidence_refs", ListText(g.evidenceRefs), Arr(Jsons(g.evidenceRefs)));
    FieldDenotes("tests", ListText(g.tests), Arr(Jsons(g.tests)), f, m);
    f, m := Field("tests", ListText(g.tests), f), [("tests", Arr(Jsons(g.tests)))] + m;
    FieldDenotes("changed_files", ListText(g.changedFiles), Arr(Jsons(g.changedFiles)), f, m);
    f, m := Field("changed_files", ListText(g.changedFiles), f), [("changed_files", Arr(Jsons(g.changedFiles)))] + m;
    FieldDenotes("code_map", ListText(g.codeMap), Arr(Jsons(g.codeMap)), f, m);
    f, m := Field("code_map", ListText(g.codeMap), f), [("code_map", Arr(Jsons(g.codeMap)))] + m;
    ObjectDenotes(f, m);
    assert m == GroupsJson(g).members;
  }

  function OmissionsJson(o: Omissions): Json {
    Obj([("code_map", Num(o.codeMap)), ("changed_files", Num(o.changedFiles)), ("tests", Num(o.tests)),
         ("evidence_refs", Num(o.evidenceRefs)), ("omitted_by_bytes", Num(o.omittedByBytes))])
  }

  lemma OmissionsDenote(o: Omissions)
    ensures Denotes(OmissionsText(o), OmissionsJson(o)) && ReadOmissions(OmissionsJson(o)) == Some(o)
  {
    hide Denotes, FieldsDenote, Plain, ObjectText, FieldsText, Decimal.Print;
    GroupNamesPlain();
    NumberDenotes(o.codeMap);
    NumberDenotes(o.changedFiles);
    NumberDenotes(o.tests);
    NumberDenotes(o.evidenceRefs);
    NumberDenotes(o.omittedByBytes);
    var f := Last("omitted_by_bytes", Decimal.Print(o.omittedByBytes));
    var m := [("omitted_by_bytes", Num(o.omittedByBytes))];
    LastDenotes("omitted_by_bytes", Decimal.Print(o.omittedByBytes), Num(o.omittedByBytes));
    FieldDenotes("evidence_refs", Decimal.Print(o.evidenceRefs), Num(o.evidenceRefs), f, m);
    f, m := Field("evidence_refs", Decimal.Print(o.evidenceRefs), f), [("evidence_refs", Num(o.evidenceRefs))] + m;
    FieldDenotes("tests", Decimal.Print(o.tests), Num(o.tests), f, m);
    f, m := Field("tests", Decimal.Print(o.tests), f), [("tests", Num(o.tests))] + m;
    FieldDenotes("changed_files", Decimal.Print(o.changedFiles), Num(o.changedFiles), f, m);
    f, m := Field("changed_files", Decimal.Print(o.changedFiles), f), [("changed_files", Num(o.changedFiles))] + m;
    FieldDenotes("code_map", Decimal.Print(o.codeMap), Num(o.codeMap), f, m);
    f, m := Field("code_map", Decimal.Print(o.codeMap), f), [("code_map", Num(o.codeMap))] + m;
    ObjectDenotes(f, m);
    assert m == OmissionsJson(o).members;
  }

  function PackTree(p: Pack): Json {
    Obj([("schema_version", Num(1)), ("pack_id", Str(p.packId)), ("source_head", Str(p.sourceHead)),
         ("policy_fingerprint", Str(p.fingerprint)), ("limits", LimitsJson(p.limits)), ("groups", GroupsJson(p.groups)),
         ("omissions", OmissionsJson(p.omissions)), ("privacy_result", Str("pass"))])
  }

  lemma PackDenotes(p: Pack)
    requires AllPlain(p)
    ensures Denotes(Serialize(p), PackTree(p))
  {
    hide Denotes, FieldsDenote, Plain, ObjectText, FieldsText, Quoted, Decimal.Print, LimitsText, GroupsText, OmissionsText,
         LimitsJson, GroupsJson, OmissionsJson, EntriesPlain, ReadGroups, ReadLimits, ReadOmissions;
    PackNamesPlain();
    NumberDenotes(1);
    StringDenotes(p.packId);
    StringDenotes(p.sourceHead);
    StringDenotes(p.fingerprint);
    LimitsDenote(p.limits);
    GroupsDenote(p.groups);
    OmissionsDenote(p.omissions);
    StringDenotes("pass");
    var f := Last("privacy_result", Quoted("pass"));
    var m := [("privacy_result", Str("pass"))];
    LastDenotes("privacy_result", Quoted("pass"), Str("pass"));
    FieldDenotes("omissions", OmissionsText(p.omissions), OmissionsJson(p.omissions), f, m);
    f, m := Field("omissions", OmissionsText(p.omissions), f), [("omissions", OmissionsJson(p.omissions))] + m;
    FieldDenotes("groups", GroupsText(p.groups), GroupsJson(p.groups), f, m);
    f, m := Field("groups", GroupsText(p.groups), f), [("groups", GroupsJson(p.groups))] + m;
    FieldDenotes("limits", LimitsText(p.limits), LimitsJson(p.limits), f, m);
    f, m := Field("limits", LimitsText(p.limits), f), [("limits", LimitsJson(p.limits))] + m;
    FieldDenotes("policy_fingerprint", Quoted(p.fingerprint), Str(p.fingerprint), f, m);
    f, m := Field("policy_fingerprint", Quoted(p.fingerprint), f), [("policy_fingerprint", Str(p.fingerprint))] + m;
    FieldDenotes("source_head", Quoted(p.sourceHead), Str(p.sourceHead), f, m);
    f, m := Field("source_head", Quoted(p.sourceHead), f), [("source_head", Str(p.sourceHead))] + m;
    FieldDenotes("pack_id", Quoted(p.packId), Str(p.packId), f, m);
    f, m := Field("pack_id", Quoted(p.packId), f), [("pack_id", Str(p.packId))] + m;
    FieldDenotes("schema_version", Decimal.Print(1), Num(1), f, m);
    f, m := Field("schema_version", Decimal.Print(1), f), [("schema_version", Num(1))] + m;
    ObjectDenotes(f, m);
    assert m == PackTree(p).members;
  }

  /** The text of a pack, read by the names of its members, is that pack: groups with all their
      entries, limits, omission counters and header. */
  lemma PackReadsBack(p: Pack)
    requires AllPlain(p)
    ensures ReadPack(Serialize(p)) == Some(p)
  {
    hide Denotes, Serialize, LimitsJson, GroupsJson, OmissionsJson, ReadLimits, ReadGroups, ReadOmissions, Read, EntriesPlain;
    PackDenotes(p);
    DenotesText(Serialize(p), PackTree(p));
    LimitsDenote(p.limits);
    GroupsDenote(p.groups);
    OmissionsDenote(p.omissions);
  }

  // ----- lengths -----

  function HeaderLength(p: Pack): nat { |p.packId| + |p.sourceHead| + |p.fingerprint| }

  lemma LimitsLength(l: Limits)
    ensures |LimitsText(l)| == 48 + |Decimal.Print(l.maxFiles)| + |Decimal.Print(l.maxBytes)| + |Decimal.Print(l.maxEvidenceRefs)|
  {
    hide Decimal.Print, FieldsText;
    var f2 := Last("max_evidence_refs", Decimal.Print(l.maxEvidenceRefs));
    var f1 := Field("max_bytes", Decimal.Print(l.maxBytes), f2);
    FieldLength("max_evidence_refs", Decimal.Print(l.maxEvidenceRefs), f2);
    FieldLength("max_bytes", Decimal.Print(l.maxBytes), f2);
    FieldLength("max_files", Decimal.Print(l.maxFiles), f1);
  }

  lemma GroupsLength(g: Groups)
    ensures |GroupsText(g)| == 56 + |ListText(g.codeMap)| + |ListText(g.changedFiles)| + |ListText(g.tests)| + |ListText(g.evidenceRefs)|
  {
    hide ListText, FieldsText;
    var f3 := Last("evidence_refs", ListText(g.evidenceRefs));
    var f2 := Field("tests", ListText(g.tests), f3);
    var f1 := Field("changed_files", ListText(g.changedFiles), f2);
    FieldLength("evidence_refs", ListText(g.evidenceRefs), f3);
    FieldLength("tests", ListText(g.tests), f3);
    FieldLength("changed_files", ListText(g.changedFiles), f2);
    FieldLength("code_map", ListText(g.codeMap), f1);
  }

  lemma OmissionsLength(o: Omissions)
    ensures |OmissionsText(o)| == 76 + |Decimal.Print(o.codeMap)| + |Decimal.Print(o.changedFiles)| + |Decimal.Print(o.tests)|
         + |Decimal.Print(o.evidenceRefs)| + |Decimal.Print(o.omittedByBytes)|
  {
    hide Decimal.Print, FieldsText;
    var f4 := Last("omitted_by_bytes", Decimal.Print(o.omittedByBytes));
    var f3 := Field("evidence_refs", Decimal.Print(o.evidenceRefs), f4);
    var f2 := Field("tests", Decimal.Print(o.tests), f3);
    var f1 := Field("changed_files", Decimal.Print(o.changedFiles), f2);
    FieldLength("omitted_by_bytes", Decimal.Print(o.omittedByBytes), f4);
    FieldLength("evidence_refs", Decimal.Print(o.evidenceRefs), f4);
    FieldLength("tests", Decimal.Print(o.tests), f3);
    FieldLength("changed_files", Decimal.Print(o.changedFiles), f2);
    FieldLength("code_map", Decimal.Print(o.codeMap), f1);
  }

  lemma PackLength(p: Pack)
    ensures |Serialize(p)| == 130 + |Decimal.Print(1)| + HeaderLength(p)
         + |LimitsText(p.limits)| + |GroupsText(p.groups)| + |OmissionsText(p.omissions)|
  {
    hide LimitsText, GroupsText, OmissionsText, FieldsText, Decimal.Print;
    var f7 := Last("privacy_result", Quoted("pass"));
    var f6 := Field("omissions", OmissionsText(p.omissions), f7);
    var f5 := Field("groups", GroupsText(p.groups), f6);
    var f4 := Field("limits", LimitsText(p.limits), f5);
    var f3 := Field("policy_fingerprint", Quoted(p.fingerprint), f4);
    var f2 := Field("source_head", Quoted(p.sourceHead), f3);
    var f1 := Field("pack_id", Quoted(p.packId), f2);
    FieldLength("privacy_result", Quoted("pass"), f7);
    FieldLength("omissions", OmissionsText(p.omissions), f7);
    FieldLength("groups", GroupsText(p.groups), f6);
    FieldLength("limits", LimitsText(p.limits), f5);
    FieldLength("policy_fingerprint", Quoted(p.fingerprint), f4);
    FieldLength("source_head", Quoted(p.sourceHead), f3);
    FieldLength("pack_id", Quoted(p.packId), f2);
    FieldLength("schema_version", Decimal.Print(1), f1);
  }

  lemma SerializeLength(p: Pack, q: Pack)
    requires HeaderLength(p) == HeaderLength(q)
    ensures |Serialize(p)| - |Serialize(q)|
         == (|LimitsText(p.limits)| - |LimitsText(q.limits)|) + (|GroupsText(p.groups)| - |GroupsText(q.groups)|)
          + (|OmissionsText(p.omissions)| - |OmissionsText(q.omissions)|)
  {
    hide LimitsText, GroupsText, OmissionsText, Serialize;
    PackLength(p);
    PackLength(q);
  }

  /** An entry that validation accepts takes at least three characters. */
  predicate Filled(e: Entry) {
    e.Evidence? ==> e.ref != ""
  }

  lemma EntryLength(e: Entry)
    requires Filled(e)
    ensures |EntryText(e)| >= 3
  {
  }

  lemma DropLastShrinks(entries: seq<Entry>)
    requires entries != [] && Filled(entries[|entries| - 1])
    ensures |ListText(entries[..|entries| - 1])| + 3 <= |ListText(entries)|
  {
    hide EntryText, ListText;
    EntryLength(entries[|entries| - 1]);
    ListLength(entries);
  }

  lemma ListLength(entries: seq<Entry>)
    requires entries != []
    ensures |ListText(entries)| == |ListText(entries[..|entries| - 1])| + |EntryText(entries[|entries| - 1])|
         + (if |entries| == 1 then 0 else 1)
  {
    hide EntryText, ItemsText;
    var m := |entries| - 1;
    assert Texts(entries) == Texts(entries[..m]) + [EntryText(entries[m])];
    if m > 0 {
      ItemsSnoc(Texts(entries[..m]), EntryText(entries[m]));
    } else {
      OneItem(EntryText(entries[m]));
      assert Texts(entries) == [EntryText(entries[m])];
    }
  }

  lemma OneItem(t: string)
    ensures ItemsText([t]) == t
  {
  }

  // ----- removing one entry -----

  /** The last entry of the last non-empty group, in the order of the groups from the back. */
  function RemoveOne(p: Pack): (r: Pack)
    requires p.groups.Count() > 0
    ensures r.groups.Count() == p.groups.Count() - 1
  {
    var (g, o) := (p.groups, p.omissions);
    if g.evidenceRefs != [] then
      p.(groups := g.(evidenceRefs := g.evidenceRefs[..|g.evidenceRefs| - 1]),
         omissions := o.(evidenceRefs := o.evidenceRefs + 1, omittedByBytes := o.omittedByBytes + 1))
    else if g.tests != [] then
      p.(groups := g.(tests := g.tests[..|g.tests| - 1]),
         omissions := o.(tests := o.tests + 1, omittedByBytes := o.omittedByBytes + 1))
    else if g.changedFiles != [] then
      p.(groups := g.(changedFiles := g.changedFiles[..|g.changedFiles| - 1]),
         omissions := o.(changedFiles := o.changedFiles + 1, omittedByBytes := o.omittedByBytes + 1))
    else
      p.(groups := g.(codeMap := g.codeMap[..|g.codeMap| - 1]),
         omissions := o.(codeMap := o.codeMap + 1, omittedByBytes := o.omittedByBytes + 1))
  }

  ghost predicate AllFilled(g: Groups) {
    && (forall i :: 0 <= i < |g.codeMap| ==> Filled(g.codeMap[i]))
    && (forall i :: 0 <= i < |g.changedFiles| ==> Filled(g.changedFiles[i]))
    && (forall i :: 0 <= i < |g.tests| ==> Filled(g.tests[i]))
    && (forall i :: 0 <= i < |g.evidenceRefs| ==> Filled(g.evidenceRefs[i]))
  }

  lemma CountersGrow(p: Pack)
    requires p.groups.Count() > 0
    ensures |OmissionsText(RemoveOne(p).omissions)| <= |OmissionsText(p.omissions)| + 2
  {
    hide Decimal.Print, OmissionsText;
    var o := p.omissions;
    OmissionsLength(o);
    OmissionsLength(RemoveOne(p).omissions);
    Decimal.SuccessorLength(o.codeMap);
    Decimal.SuccessorLength(o.changedFiles);
    Decimal.SuccessorLength(o.tests);
    Decimal.SuccessorLength(o.evidenceRefs);
    Decimal.SuccessorLength(o.omittedByBytes);
  }

  lemma GroupsShrink(p: Pack)
    requires p.groups.Count() > 0 && AllFilled(p.groups)
    ensures |GroupsText(RemoveOne(p).groups)| + 3 <= |GroupsText(p.groups)|
  {
    hide ListText, GroupsText;
    var g := p.groups;
    GroupsLength(g);
    GroupsLength(RemoveOne(p).groups);
    if g.evidenceRefs != [] { DropLastShrinks(g.evidenceRefs); }
    else if g.tests != [] { DropLastShrinks(g.tests); }
    else if g.changedFiles != [] { DropLastShrinks(g.changedFiles); }
    else { DropLastShrinks(g.codeMap); }
  }

  /** Removing an entry shortens the text even when both counters that record it gain a digit. */
  lemma RemovalShortens(p: Pack)
    requires p.groups.Count() > 0 && AllFilled(p.groups)
    ensures |Serialize(RemoveOne(p))| < |Serialize(p)|
  {
    hide Serialize, GroupsText, OmissionsText, LimitsText;
    GroupsShrink(p);
    CountersGrow(p);
    SerializeLength(p, RemoveOne(p));
  }

  /** The group the next removal takes from, and its counter. */
  function NextGroup(p: Pack): (seq<Entry>, nat) {
    var (g, o) := (p.groups, p.omissions);
    if g.evidenceRefs != [] then (g.evidenceRefs, o.evidenceRefs)
    else if g.tests != [] then (g.tests, o.tests)
    else if g.changedFiles != [] then (g.changedFiles, o.changedFiles)
    else (g.codeMap, o.codeMap)
  }

  function NewDigit(n: nat): (d: nat)
    ensures d <= 1
  {
    Decimal.SuccessorLength(n);
    |Decimal.Print(n + 1)| - |Decimal.Print(n)|
  }

  lemma CountersGrowBy(p: Pack)
    requires p.groups.Count() > 0
    ensures |OmissionsText(RemoveOne(p).omissions)| - |OmissionsText(p.omissions)|
         == NewDigit(NextGroup(p).1) + NewDigit(p.omissions.omittedByBytes)
  {
    hide Decimal.Print, OmissionsText;
    OmissionsLength(p.omissions);
    OmissionsLength(RemoveOne(p).omissions);
  }

  /** How much of a list goes with its last entry: the entry, and a comma unless it was the only one. */
  function LastShare(entries: seq<Entry>): (n: nat)
    requires entries != []
    ensures n >= 2
    ensures n == 2 <==> entries == [Evidence("")]
  {
    |EntryText(entries[|entries| - 1])| + (if |entries| == 1 then 0 else 1)
  }

  lemma DropLastShrinksBy(entries: seq<Entry>)
    requires entries != []
    ensures |ListText(entries)| - |ListText(entries[..|entries| - 1])| == LastShare(entries)
  {
    hide EntryText, ListText;
    ListLength(entries);
  }

  lemma GroupsShrinkBy(p: Pack)
    requires p.groups.Count() > 0
    ensures NextGroup(p).0 != []
    ensures |GroupsText(p.groups)| - |GroupsText(RemoveOne(p).groups)| == LastShare(NextGroup(p).0)
  {
    hide ListText, LastShare, GroupsText;
    GroupsLength(p.groups);
    GroupsLength(RemoveOne(p).groups);
    var entries := NextGroup(p).0;
    DropLastShrinksBy(entries);
  }

  /** Over all packs a removal shortens the text, except when it takes away the only entry of its group,
      that entry is an empty reference, and both counters that record it gain a digit. */
  lemma RemovalShortensIff(p: Pack)
    requires p.groups.Count() > 0
    ensures |Serialize(RemoveOne(p))| < |Serialize(p)| <==>
      !(NextGroup(p).0 == [Evidence("")] && NewDigit(NextGroup(p).1) == 1 && NewDigit(p.omissions.omittedByBytes) == 1)
  {
    hide Serialize, GroupsText, OmissionsText, LimitsText, NewDigit, LastShare;
    GroupsShrinkBy(p);
    CountersGrowBy(p);
    SerializeLength(p, RemoveOne(p));
  }

  /** The exception occurs: two new digits, two quotes gone. */
  lemma EmptyReferenceWouldNotShorten()
    ensures
      var p := Pack("a", "", "", Limits(1, 1, 1), Groups([], [], [], [Evidence("")]), Omissions(0, 0, 0, 9, 9));
      |Serialize(RemoveOne(p))| == |Serialize(p)|
  {
    var p := Pack("a", "", "", Limits(1, 1, 1), Groups([], [], [], [Evidence("")]), Omissions(0, 0, 0, 9, 9));
    hide Serialize, GroupsText, OmissionsText, LimitsText;
    GroupsShrinkBy(p);
    CountersGrowBy(p);
    SerializeLength(p, RemoveOne(p));
    assert |Decimal.Print(10)| == 2 && |Decimal.Print(9)| == 1;
  }

  // ----- the chain of removals -----

  function Removed(p: Pack, k: nat): (r: Pack)
    requires k <= p.groups.Count()
    ensures r.groups.Count() == p.groups.Count() - k
  {
    if k == 0 then p else RemoveOne(Removed(p, k - 1))
  }

  lemma {:induction false} RemovedFilled(p: Pack, k: nat)
    requires k <= p.groups.Count() && AllFilled(p.groups)
    ensures AllFilled(Removed(p, k).groups)
    decreases k
  {
    if k > 0 {
      hide RemoveOne, AllFilled;
      RemovedFilled(p, k - 1);
      RemoveOneFilled(Removed(p, k - 1));
    }
  }

  lemma RemoveOneFilled(p: Pack)
    requires p.groups.Count() > 0 && AllFilled(p.groups)
    ensures AllFilled(RemoveOne(p).groups)
  {
    hide Filled;
  }

  lemma {:induction false} ChainShortens(p: Pack, j: nat, k: nat)
    requires j < k <= p.groups.Count() && AllFilled(p.groups)
    ensures |Serialize(Removed(p, k))| < |Serialize(Removed(p, j))|
    decreases k
  {
    hide Serialize, RemoveOne;
    RemovedFilled(p, k - 1);
    RemovalShortens(Removed(p, k - 1));
    if j < k - 1 {
      ChainShortens(p, j, k - 1);
    }
  }

  /** Another limit on bytes changes the text by the digits of that limit only. */
  function Relimit(p: Pack, maxBytes: nat, fingerprint: string): Pack {
    p.(limits := p.limits.(maxBytes := maxBytes), fingerprint := fingerprint)
  }

  lemma RelimitRemoveOne(p: Pack, maxBytes: nat, fingerprint: string)
    requires p.groups.Count() > 0
    ensures RemoveOne(Relimit(p, maxBytes, fingerprint)) == Relimit(RemoveOne(p), maxBytes, fingerprint)
  {
  }

  lemma {:induction false} RelimitRemoved(p: Pack, maxBytes: nat, fingerprint: string, k: nat)
    requires k <= p.groups.Count()
    ensures Removed(Relimit(p, maxBytes, fingerprint), k) == Relimit(Removed(p, k), maxBytes, fingerprint)
    decreases k
  {
    if k > 0 {
      hide RemoveOne, Relimit;
      RelimitRemoved(p, maxBytes, fingerprint, k - 1);
      RelimitRemoveOne(Removed(p, k - 1), maxBytes, fingerprint);
    }
  }

  lemma {:induction false} RemovedHeader(p: Pack, k: nat)
    requires k <= p.groups.Count()
    ensures
      var q := Removed(p, k);
      (q.packId, q.sourceHead, q.fingerprint, q.limits) == (p.packId, p.sourceHead, p.fingerprint, p.limits)
    decreases k
  {
    if k > 0 {
      RemovedHeader(p, k - 1);
    }
  }

  lemma RelimitLength(p: Pack, maxBytes: nat, fingerprint: string)
    requires p.limits.maxBytes <= maxBytes && |fingerprint| == |p.fingerprint|
    ensures |Serialize(Relimit(p, maxBytes, fingerprint))| <= |Serialize(p)| + (maxBytes - p.limits.maxBytes)
  {
    hide Serialize, GroupsText, OmissionsText, LimitsText, Decimal.Print;
    LimitsLength(p.limits);
    LimitsLength(Relimit(p, maxBytes, fingerprint).limits);
    Decimal.LengthGrowth(p.limits.maxBytes, maxBytes);
    SerializeLength(Relimit(p, maxBytes, fingerprint), p);
  }
}
