/** Entries of a context pack and the order they are sorted in (core/src/context_pack.rs). */
module PackOrder {

  datatype ChangeStatus = Added | Modified | Deleted | Renamed

  datatype TestOutcome = Passed | Failed | Blocked | NotApplicable

  datatype Entry =
    | CodeMap(path: string, sha256: string)
    | Changed(path: string, status: ChangeStatus, sha256: string)
    | Test(testId: string, outcome: TestOutcome, evidenceRef: string)
    | Evidence(ref: string)

  function StatusRank(s: ChangeStatus): string {
    match s case Added => "0" case Modified => "1" case Deleted => "2" case Renamed => "3"
  }

  function OutcomeRank(o: TestOutcome): string {
    match o case Passed => "0" case Failed => "1" case Blocked => "2" case NotApplicable => "3"
  }

  /** The fields an entry is compared by, in order; enumerations compare by declaration order. */
  function Key(e: Entry): seq<string> {
    match e
    case CodeMap(path, sha256) => ["c", path, sha256]
    case Changed(path, status, sha256) => ["f", path, StatusRank(status), sha256]
    case Test(testId, outcome, evidenceRef) => ["t", testId, OutcomeRank(outcome), evidenceRef]
    case Evidence(ref) => ["e", ref]
  }

  // ----- lexicographic order -----

  predicate Lex<T(==)>(leq: (T, T) -> bool, a: seq<T>, b: seq<T>) {
    a == [] || (b != [] && if a[0] == b[0] then Lex(leq, a[1..], b[1..]) else leq(a[0], b[0]))
  }

  ghost predicate TotalOrder<T(!new)>(leq: (T, T) -> bool) {
    && (forall x, y :: leq(x, y) || leq(y, x))
    && (forall x, y :: leq(x, y) && leq(y, x) ==> x == y)
    && (forall x, y, z :: leq(x, y) && leq(y, z) ==> leq(x, z))
  }

  lemma {:induction false} LexTotal<T(!new)>(leq: (T, T) -> bool, a: seq<T>, b: seq<T>)
    requires TotalOrder(leq)
    ensures Lex(leq, a, b) || Lex(leq, b, a)
    decreases |a|
  {
    if a != [] && b != [] && a[0] == b[0] {
      LexTotal(leq, a[1..], b[1..]);
    }
  }

  lemma {:induction false} LexAntisymmetric<T(!new)>(leq: (T, T) -> bool, a: seq<T>, b: seq<T>)
    requires TotalOrder(leq) && Lex(leq, a, b) && Lex(leq, b, a)
    ensures a == b
    decreases |a|
  {
    if a != [] && b != [] {
      LexAntisymmetric(leq, a[1..], b[1..]);
      assert a == [a[0]] + a[1..] && b == [b[0]] + b[1..];
    }
  }

  lemma {:induction false} LexTransitive<T(!new)>(leq: (T, T) -> bool, a: seq<T>, b: seq<T>, c: seq<T>)
    requires TotalOrder(leq) && Lex(leq, a, b) && Lex(leq, b, c)
    ensures Lex(leq, a, c)
    decreases |a|
  {
    if a != [] && a[0] == b[0] == c[0] {
      LexTransitive(leq, a[1..], b[1..], c[1..]);
    }
  }

  predicate CharLeq(a: char, b: char) { a <= b }

  predicate StringLeq(a: string, b: string) { Lex(CharLeq, a, b) }

  predicate Leq(a: Entry, b: Entry) { Lex(StringLeq, Key(a), Key(b)) }

  lemma StringOrder()
    ensures TotalOrder(StringLeq)
  {
    forall x, y
      ensures StringLeq(x, y) || StringLeq(y, x)
    { LexTotal(CharLeq, x, y); }
    forall x, y | StringLeq(x, y) && StringLeq(y, x)
      ensures x == y
    { LexAntisymmetric(CharLeq, x, y); }
    forall x, y, z | StringLeq(x, y) && StringLeq(y, z)
      ensures StringLeq(x, z)
    { LexTransitive(CharLeq, x, y, z); }
  }

  lemma KeyIdentifies(a: Entry, b: Entry)
    requires Key(a) == Key(b)
    ensures a == b
  {
    assert Key(a)[0] == Key(b)[0] && Key(a)[1] == Key(b)[1];
    if |Key(a)| > 2 { assert Key(a)[2] == Key(b)[2]; }
    if |Key(a)| > 3 { assert Key(a)[3] == Key(b)[3]; }
  }

  lemma EntryOrder()
    ensures TotalOrder(Leq)
  {
    hide Key;
    StringOrder();
    forall x, y
      ensures Leq(x, y) || Leq(y, x)
    { LexTotal(StringLeq, Key(x), Key(y)); }
    forall x, y | Leq(x, y) && Leq(y, x)
      ensures x == y
    { LexAntisymmetric(StringLeq, Key(x), Key(y)); KeyIdentifies(x, y); }
    forall x, y, z | Leq(x, y) && Leq(y, z)
      ensures Leq(x, z)
    { LexTransitive(StringLeq, Key(x), Key(y), Key(z)); }
  }

  // ----- which order it is -----

  /** a comes before b in a dictionary. */
  ghost predicate Before(a: string, b: string) {
    || a < b
    || exists k :: 0 <= k < |a| && k < |b| && a[..k] == b[..k] && a[k] < b[k]
  }

  lemma {:induction false} StringLeqMeans(a: string, b: string)
    ensures StringLeq(a, b) <==> a == b || Before(a, b)
    decreases |a|
  {
    if a != [] && b != [] && a[0] == b[0] {
      StringLeqMeans(a[1..], b[1..]);
      assert a == [a[0]] + a[1..] && b == [b[0]] + b[1..];
      BeforeTail(a, b);
    } else if a != [] && b != [] {
      assert a[..0] == b[..0];
      assert forall k :: 1 <= k <= |a| && k <= |b| ==> a[..k][0] == a[0] && b[..k][0] == b[0];
    }
  }

  lemma BeforeTail(a: string, b: string)
    requires a != [] && b != [] && a[0] == b[0]
    ensures Before(a, b) <==> Before(a[1..], b[1..])
  {
    var s, t := a[1..], b[1..];
    assert a == [a[0]] + s && b == [b[0]] + t;
    if k :| 0 <= k < |a| && k < |b| && a[..k] == b[..k] && a[k] < b[k] {
      assert s[..k - 1] == a[..k][1..] && t[..k - 1] == b[..k][1..];
      assert s[k - 1] < t[k - 1];
    }
    if k :| 0 <= k < |s| && k < |t| && s[..k] == t[..k] && s[k] < t[k] {
      assert a[..k + 1] == [a[0]] + s[..k] && b[..k + 1] == [b[0]] + t[..k];
      assert a[k + 1] < b[k + 1];
    }
  }

  function StatusPlace(s: ChangeStatus): nat {
    match s case Added => 0 case Modified => 1 case Deleted => 2 case Renamed => 3
  }

  function OutcomePlace(o: TestOutcome): nat {
    match o case Passed => 0 case Failed => 1 case Blocked => 2 case NotApplicable => 3
  }

  ghost predicate NotBehind(a: string, b: string) { a == b || Before(a, b) }

  lemma OneChar(c: char, d: char)
    ensures StringLeq([c], [d]) <==> c <= d
  {
    var empty: string := [];
    assert [c][1..] == empty && [d][1..] == empty && Lex(CharLeq, empty, empty);
    assert Lex(CharLeq, [c], [d]) <==> if c == d then Lex(CharLeq, [c][1..], [d][1..]) else CharLeq(c, d);
  }

  lemma RanksInPlace(s: ChangeStatus, t: ChangeStatus, o: TestOutcome, p: TestOutcome)
    ensures StringLeq(StatusRank(s), StatusRank(t)) <==> StatusPlace(s) <= StatusPlace(t)
    ensures StringLeq(OutcomeRank(o), OutcomeRank(p)) <==> OutcomePlace(o) <= OutcomePlace(p)
    ensures StatusRank(s) == StatusRank(t) <==> s == t
    ensures OutcomeRank(o) == OutcomeRank(p) <==> o == p
  {
    hide StringLeq;
    OneChar(StatusRank(s)[0], StatusRank(t)[0]);
    OneChar(OutcomeRank(o)[0], OutcomeRank(p)[0]);
    assert StatusRank(s) == [StatusRank(s)[0]] && StatusRank(t) == [StatusRank(t)[0]];
    assert OutcomeRank(o) == [OutcomeRank(o)[0]] && OutcomeRank(p) == [OutcomeRank(p)[0]];
  }

  /** Entries of one kind as in a dictionary: first by path or identifier, then by status or outcome in
      order of declaration, then by digest or reference. */
  ghost predicate ByFields(a: Entry, b: Entry) {
    match (a, b)
    case (CodeMap(p, s), CodeMap(q, t)) => Before(p, q) || (p == q && NotBehind(s, t))
    case (Changed(p, x, s), Changed(q, y, t)) =>
      Before(p, q) || (p == q && (StatusPlace(x) < StatusPlace(y) || (x == y && NotBehind(s, t))))
    case (Test(p, x, s), Test(q, y, t)) =>
      Before(p, q) || (p == q && (OutcomePlace(x) < OutcomePlace(y) || (x == y && NotBehind(s, t))))
    case (Evidence(s), Evidence(t)) => NotBehind(s, t)
    case _ => false
  }

  predicate SameKind(a: Entry, b: Entry) {
    (a.CodeMap? && b.CodeMap?) || (a.Changed? && b.Changed?) || (a.Test? && b.Test?) || (a.Evidence? && b.Evidence?)
  }

  lemma LeqByFields(a: Entry, b: Entry)
    requires SameKind(a, b)
    ensures Leq(a, b) <==> ByFields(a, b)
  {
    hide StringLeq, Before, NotBehind, Lex;
    match (a, b) {
      case (CodeMap(p, s), CodeMap(q, t)) =>
        assert Key(a) == ["c", p] + [s] && Key(b) == ["c", q] + [t];
        LeqOfPair("c", p, q, [s], [t]);
        LeqOfLast(s, t);
      case (Changed(p, x, s), Changed(q, y, t)) =>
        assert Key(a) == ["f", p] + ([StatusRank(x)] + [s]) && Key(b) == ["f", q] + ([StatusRank(y)] + [t]);
        LeqOfPair("f", p, q, [StatusRank(x)] + [s], [StatusRank(y)] + [t]);
        RanksInPlace(x, y, Passed, Passed);
        LeqOfFirst(StatusRank(x), StatusRank(y), [s], [t]);
        LeqOfLast(s, t);
      case (Test(p, x, s), Test(q, y, t)) =>
        assert Key(a) == ["t", p] + ([OutcomeRank(x)] + [s]) && Key(b) == ["t", q] + ([OutcomeRank(y)] + [t]);
        LeqOfPair("t", p, q, [OutcomeRank(x)] + [s], [OutcomeRank(y)] + [t]);
        RanksInPlace(Added, Added, x, y);
        LeqOfFirst(OutcomeRank(x), OutcomeRank(y), [s], [t]);
        LeqOfLast(s, t);
      case (Evidence(s), Evidence(t)) =>
        assert Key(a) == ["e"] + [s] && Key(b) == ["e"] + [t];
        LeqOfFirst("e", "e", [s], [t]);
        LeqOfLast(s, t);
    }
  }

  lemma LeqOfFirst(x: string, y: string, a: seq<string>, b: seq<string>)
    ensures Lex(StringLeq, [x] + a, [y] + b) <==> if x == y then Lex(StringLeq, a, b) else StringLeq(x, y)
  {
    hide StringLeq;
    assert ([x] + a)[1..] == a && ([y] + b)[1..] == b;
  }

  lemma LeqOfLast(s: string, t: string)
    ensures Lex(StringLeq, [s], [t]) <==> NotBehind(s, t)
  {
    StringLeqMeans(s, t);
    StringLeqMeans(s, s);
  }

  lemma LeqOfPair(kind: string, p: string, q: string, a: seq<string>, b: seq<string>)
    ensures Lex(StringLeq, [kind, p] + a, [kind, q] + b) <==> Before(p, q) || (p == q && Lex(StringLeq, a, b))
  {
    hide StringLeq, Before;
    hide Lex;
    assert [kind, p] + a == [kind] + ([p] + a) && [kind, q] + b == [kind] + ([q] + b);
    LeqOfFirst(kind, kind, [p] + a, [q] + b);
    LeqOfFirst(p, q, a, b);
    StringLeqMeans(p, q);
    NotBeforeItself(p);
  }

  lemma NotBeforeItself(p: string)
    ensures !Before(p, p)
  {
  }

  // ----- sorting -----

  function Insert(e: Entry, s: seq<Entry>): seq<Entry> {
    if s == [] || Leq(e, s[0]) then [e] + s else [s[0]] + Insert(e, s[1..])
  }

  function Sort(s: seq<Entry>): seq<Entry> {
    if s == [] then [] else Insert(s[0], Sort(s[1..]))
  }

  ghost predicate Sorted(s: seq<Entry>) {
    forall i, j :: 0 <= i < j < |s| ==> Leq(s[i], s[j])
  }

  lemma {:induction false} InsertKeeps(e: Entry, s: seq<Entry>)
    ensures multiset(Insert(e, s)) == multiset{e} + multiset(s)
    ensures |Insert(e, s)| == |s| + 1
    decreases |s|
  {
    hide Leq;
    if s != [] {
      assert s == [s[0]] + s[1..];
      if !Leq(e, s[0]) {
        InsertKeeps(e, s[1..]);
      }
    }
  }

  lemma {:induction false} InsertSorts(e: Entry, s: seq<Entry>)
    requires Sorted(s)
    ensures Sorted(Insert(e, s))
    decreases |s|
  {
    hide Leq;
    EntryOrder();
    if s != [] && !Leq(e, s[0]) {
      var rest := Insert(e, s[1..]);
      InsertSorts(e, s[1..]);
      InsertKeeps(e, s[1..]);
      forall j | 0 <= j < |rest|
        ensures Leq(s[0], rest[j])
      {
        assert rest[j] in multiset(rest);
        if rest[j] != e {
          assert rest[j] in multiset(s[1..]);
          var k :| 0 <= k < |s[1..]| && s[1..][k] == rest[j];
          assert Leq(s[0], s[k + 1]);
        }
      }
    }
  }

  lemma {:induction false} SortSorts(s: seq<Entry>)
    ensures Sorted(Sort(s)) && multiset(Sort(s)) == multiset(s) && |Sort(s)| == |s|
    decreases |s|
  {
    hide Leq;
    if s != [] {
      SortSorts(s[1..]);
      InsertSorts(s[0], Sort(s[1..]));
      InsertKeeps(s[0], Sort(s[1..]));
      assert s == [s[0]] + s[1..];
    }
  }

  /** The first entry of a sorted list is below all the others. */
  lemma FirstIsLeast(a: seq<Entry>, e: Entry)
    requires Sorted(a) && e in multiset(a)
    ensures a != [] && Leq(a[0], e)
  {
    hide Leq;
    EntryOrder();
    var k :| 0 <= k < |a| && a[k] == e;
    if k > 0 {
      assert Leq(a[0], a[k]);
    }
  }

  lemma LeqAntisymmetric(x: Entry, y: Entry)
    requires Leq(x, y) && Leq(y, x)
    ensures x == y
  {
    EntryOrder();
  }

  lemma SortedTail(a: seq<Entry>)
    requires Sorted(a) && a != []
    ensures Sorted(a[1..]) && multiset(a[1..]) == multiset(a) - multiset{a[0]} && a == [a[0]] + a[1..]
  {
    hide Leq;
    assert a == [a[0]] + a[1..];
    assert multiset(a) == multiset{a[0]} + multiset(a[1..]);
  }

  lemma {:induction false} SortedUnique(a: seq<Entry>, b: seq<Entry>)
    requires Sorted(a) && Sorted(b) && multiset(a) == multiset(b)
    ensures a == b
    decreases |a|
  {
    hide Leq, Sorted;
    assert |multiset(a)| == |a| && |multiset(b)| == |b|;
    if a != [] {
      assert a[0] in multiset(a) && b[0] in multiset(b);
      FirstIsLeast(b, a[0]);
      FirstIsLeast(a, b[0]);
      LeqAntisymmetric(a[0], b[0]);
      SortedTail(a);
      SortedTail(b);
      SortedUnique(a[1..], b[1..]);
    }
  }

  /** Any two arrangements of the same entries sort to the same list. */
  lemma SortIsCanonical(a: seq<Entry>, b: seq<Entry>)
    requires multiset(a) == multiset(b)
    ensures Sort(a) == Sort(b)
  {
    SortSorts(a);
    SortSorts(b);
    SortedUnique(Sort(a), Sort(b));
  }
}
