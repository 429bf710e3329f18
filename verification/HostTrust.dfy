/** The trust record of a host alias (core/src/host_profile.rs).

`check` and `register` move one record between pending, registered and blocked.  The
lemmas are about every run of the two from an empty store. */
module HostTrust {
  import opened Text
  import KnownHosts

  datatype Trust = Pending | Registered | Blocked

  datatype Endpoint = Endpoint(hostname: string, port: nat, user: string, proxyjump: Option<string>)
  {
    predicate SameAddress(other: Endpoint) { hostname == other.hostname && port == other.port }
  }

  datatype Record = Record(endpoint: Endpoint, confirmed: Option<string>, state: Trust)

  /** What the known_hosts files say, as a function of the fingerprint already confirmed. */
  datatype Known = Known(keys: set<string>, revoked: set<string>)
  {
    ghost function Presented(confirmed: Option<string>): KnownHosts.Presented {
      KnownHosts.Verdict(keys, revoked, confirmed)
    }
  }

  /** `Failed` is a command stopped by an unresolved alias or an unreadable file. */
  datatype Event = Check(resolved: Endpoint, known: Known) | Register(resolved: Endpoint, known: Known) | Failed

  function NextState(r: Record, presented: KnownHosts.Presented): Trust {
    match (r.state, r.confirmed, presented)
    case (_, _, Revoked) => Blocked
    case (_, Some(_), Ambiguous) => Blocked
    case (Blocked, _, _) => Blocked
    case (_, Some(confirmed), Unique(f)) =>
      if confirmed != f then Blocked else if r.state.Registered? then Registered else Pending
    case (Registered, Some(_), Absent) => Registered
    case _ => Pending
  }

  predicate Moved(r: Record, resolved: Endpoint) {
    r.confirmed.Some? && !r.endpoint.SameAddress(resolved)
  }

  ghost function AfterCheck(store: Option<Record>, resolved: Endpoint, known: Known): Record {
    var r := if store.Some? then store.value else Record(resolved, None, Pending);
    if Moved(r, resolved) then r.(state := Blocked)
    else
      var updated := r.(endpoint := resolved);
      updated.(state := NextState(updated, known.Presented(r.confirmed)))
  }

  ghost function AfterRegister(r: Record, resolved: Endpoint, known: Known): Record {
    if Moved(r, resolved) then r.(state := Blocked)
    else
      match known.Presented(r.confirmed)
      case Absent => r
      case Unique(f) =>
        if NextState(r, KnownHosts.Unique(f)).Blocked? || (r.confirmed.Some? && r.confirmed.value != f) then r.(state := Blocked)
        else if r.state.Registered? && r.confirmed == Some(f) then r
        else Record(resolved, Some(f), Registered)
      case _ => if r.confirmed.Some? then r.(state := Blocked) else r
  }

  ghost function Next(store: Option<Record>, e: Event): Option<Record> {
    match e
    case Check(resolved, known) => Some(AfterCheck(store, resolved, known))
    case Register(resolved, known) =>
      if store.None? then None else Some(AfterRegister(store.value, resolved, known))
    case Failed => store
  }

  datatype Outcome = Done | Refused

  /** One alias's record file. */
  class Store {
    var record: Option<Record>

    constructor ()
      ensures record == None
    {
      record := None;
    }

    /** `presented` is the result of reading known_hosts with the confirmed fingerprint of the
        record as it stands. */
    method CheckAlias(resolved: Endpoint, ghost known: Known, presented: KnownHosts.Presented)
      requires presented == known.Presented(if record.Some? then record.value.confirmed else None)
      modifies this
      ensures record == Next(old(record), Check(resolved, known))
    {
      var r := if record.Some? then record.value else Record(resolved, None, Pending);
      if r.confirmed.Some? && (r.endpoint.hostname != resolved.hostname || r.endpoint.port != resolved.port) {
        r := r.(state := Blocked);
        record := Some(r);
        return;
      }
      r := r.(endpoint := resolved);
      r := r.(state := NextState(r, presented));
      record := Some(r);
    }

    method RegisterAlias(resolved: Endpoint, ghost known: Known, presented: KnownHosts.Presented) returns (outcome: Outcome)
      requires presented == known.Presented(if record.Some? then record.value.confirmed else None)
      modifies this
      ensures record == Next(old(record), Register(resolved, known))
      ensures outcome.Done? <==> old(record).Some? && record.value.state.Registered? && presented.Unique?
    {
      if record.None? {
        return Refused;
      }
      var r := record.value;
      if r.confirmed.Some? && (r.endpoint.hostname != resolved.hostname || r.endpoint.port != resolved.port) {
        record := Some(r.(state := Blocked));
        return Refused;
      }
      match presented {
        case Absent =>
          return Refused;
        case Unique(f) =>
          if NextState(r, KnownHosts.Unique(f)).Blocked? || (r.confirmed.Some? && r.confirmed.value != f) {
            record := Some(r.(state := Blocked));
            return Refused;
          }
          if r.state.Registered? && r.confirmed == Some(f) {
            return Done;
          }
          record := Some(Record(resolved, Some(f), Registered));
          return Done;
        case _ =>
          if r.confirmed.Some? {
            record := Some(r.(state := Blocked));
          }
          return Refused;
      }
    }
  }

  // ----- runs from an empty store -----

  ghost function After(events: seq<Event>): Option<Record> {
    if events == [] then None else Next(After(events[..|events| - 1]), events[|events| - 1])
  }

  /** Registered exactly when a fingerprint is confirmed and the record is not blocked. */
  predicate Coherent(store: Option<Record>) {
    store.Some? ==>
      && (store.value.state.Registered? ==> store.value.confirmed.Some?)
      && (store.value.state.Pending? ==> store.value.confirmed.None?)
  }

  lemma {:induction false} RunsStayCoherent(events: seq<Event>)
    ensures Coherent(After(events))
    decreases |events|
  {
    hide KnownHosts.Verdict;
    if events != [] {
      RunsStayCoherent(events[..|events| - 1]);
    }
  }

  /** A later record keeps the block, and the confirmed fingerprint with its address. */
  ghost predicate Keeps(earlier: Option<Record>, later: Option<Record>) {
    earlier.Some? ==>
      && later.Some?
      && (earlier.value.state.Blocked? ==> later.value.state.Blocked?)
      && (earlier.value.confirmed.Some? ==>
          later.value.confirmed == earlier.value.confirmed && later.value.endpoint.SameAddress(earlier.value.endpoint))
  }

  lemma StepKeeps(store: Option<Record>, e: Event)
    requires Coherent(store)
    ensures Keeps(store, Next(store, e))
  {
    hide KnownHosts.Verdict;
  }

  lemma {:induction false} BlockedAndConfirmedPersist(events: seq<Event>, k: nat)
    requires k <= |events|
    ensures Keeps(After(events[..k]), After(events))
    decreases |events|
  {
    if k == |events| {
      assert events[..k] == events;
    } else {
      var m := |events| - 1;
      assert events[..m][..k] == events[..k];
      BlockedAndConfirmedPersist(events[..m], k);
      RunsStayCoherent(events[..m]);
      StepKeeps(After(events[..m]), events[m]);
    }
  }

  // ----- exactly which runs end registered -----

  /** Nothing the event shows speaks against fingerprint f at this address. */
  ghost predicate Compatible(e: Event, address: Endpoint, f: string) {
    e.Failed? ||
    (e.resolved.SameAddress(address) &&
     (e.known.Presented(Some(f)) == KnownHosts.Unique(f) || e.known.Presented(Some(f)) == KnownHosts.Absent))
  }

  /** At event i a pending record was registered with f; every later event was compatible. */
  ghost predicate RegisteredSince(events: seq<Event>, i: nat, f: string) {
    && i < |events| && events[i].Register?
    && After(events[..i]).Some? && After(events[..i]).value.state.Pending?
    && events[i].known.Presented(None) == KnownHosts.Unique(f)
    && forall j :: i < j < |events| ==> Compatible(events[j], events[i].resolved, f)
  }

  lemma StepOfRegistered(r: Record, e: Event)
    requires r.state.Registered? && r.confirmed.Some?
    ensures Next(Some(r), e).value.state.Registered? <==> Compatible(e, r.endpoint, r.confirmed.value)
  {
    hide KnownHosts.Verdict;
  }

  lemma StepToRegistered(store: Option<Record>, e: Event)
    requires Coherent(store) && !(store.Some? && store.value.state.Registered?)
    ensures
      var next := Next(store, e);
      next.Some? && next.value.state.Registered? <==>
        store.Some? && store.value.state.Pending? && e.Register? && e.known.Presented(None).Unique?
    ensures
      var next := Next(store, e);
      next.Some? && next.value.state.Registered? ==>
        next.value.confirmed == Some(e.known.Presented(None).fingerprint) && next.value.endpoint == e.resolved
  {
    hide KnownHosts.Verdict;
  }

  ghost predicate EndsRegistered(events: seq<Event>, f: string) {
    After(events).Some? && After(events).value.state.Registered? && After(events).value.confirmed == Some(f)
  }

  lemma {:induction false} ReasonRegisters(events: seq<Event>, i: nat, f: string)
    requires RegisteredSince(events, i, f)
    ensures EndsRegistered(events, f) && After(events).value.endpoint.SameAddress(events[i].resolved)
    decreases |events|
  {
    hide Next, KnownHosts.Verdict;
    var m := |events| - 1;
    var past := events[..m];
    assert past[..i] == events[..i];
    RunsStayCoherent(past);
    if i == m {
      StepToRegistered(After(past), events[m]);
    } else {
      ReasonRegisters(past, i, f);
      StepOfRegistered(After(past).value, events[m]);
      StepKeeps(After(past), events[m]);
    }
  }

  lemma {:induction false} RegistrationHasReason(events: seq<Event>, f: string) returns (i: nat)
    requires EndsRegistered(events, f)
    ensures RegisteredSince(events, i, f)
    decreases |events|
  {
    hide Next, KnownHosts.Verdict;
    var m := |events| - 1;
    var past := events[..m];
    var store := After(past);
    RunsStayCoherent(past);
    if store.Some? && store.value.state.Registered? {
      StepKeeps(store, events[m]);
      i := RegistrationHasReason(past, f);
      assert past[..i] == events[..i];
      ReasonRegisters(past, i, f);
      StepOfRegistered(store.value, events[m]);
    } else {
      StepToRegistered(store, events[m]);
      i := m;
    }
  }

  /** A run ends registered with f exactly when some register call confirmed f from a pending
      record and no later command met another address, key, revocation or ambiguity. */
  lemma RegisteredIff(events: seq<Event>, f: string)
    ensures EndsRegistered(events, f) <==> exists i: nat :: RegisteredSince(events, i, f)
  {
    hide EndsRegistered, RegisteredSince;
    if EndsRegistered(events, f) {
      var i := RegistrationHasReason(events, f);
    }
    if exists i: nat :: RegisteredSince(events, i, f) {
      var i: nat :| RegisteredSince(events, i, f);
      ReasonRegisters(events, i, f);
    }
  }

  // ----- exactly which runs end blocked, from the key sets alone -----

  datatype Confirmation = Confirmation(fingerprint: string, address: Endpoint)

  /** What a command finds speaks against a confirmed fingerprint: another address, the fingerprint
      revoked, or some other key. */
  ghost predicate Against(c: Confirmation, resolved: Endpoint, known: Known) {
    || c.address.hostname != resolved.hostname || c.address.port != resolved.port || c.fingerprint in known.revoked
    || exists g :: g in known.keys && g != c.fingerprint
  }

  /** With a confirmation, a check or register that speaks against it; without one, a check that finds
      the only key revoked. */
  ghost predicate Blocks(confirmed: Option<Confirmation>, e: Event) {
    match e
    case Failed => false
    case Check(resolved, known) =>
      if confirmed.Some? then Against(confirmed.value, resolved, known) else exists f :: known.keys == {f} && f in known.revoked
    case Register(resolved, known) => confirmed.Some? && Against(confirmed.value, resolved, known)
  }

  ghost predicate Checked(events: seq<Event>) {
    exists i :: 0 <= i < |events| && events[i].Check?
  }

  /** The first register of a checked, unblocked alias that finds one key, not revoked, confirms it. */
  ghost function ConfirmedBy(events: seq<Event>): Option<Confirmation>
    decreases |events|, 1
  {
    if events == [] then None
    else
      var (past, e) := (events[..|events| - 1], events[|events| - 1]);
      if ConfirmedBy(past).Some? then ConfirmedBy(past)
      else if e.Register? && Checked(past) && !BlockedBy(past) && exists f :: e.known.keys == {f} && f !in e.known.revoked then
        var f :| e.known.keys == {f};
        Some(Confirmation(f, e.resolved))
      else None
  }

  /** Some event blocks, given what was confirmed before it. */
  ghost predicate BlockedBy(events: seq<Event>)
    decreases |events|, 0
  {
    exists j :: 0 <= j < |events| && BlocksAt(events, j)
  }

  ghost predicate BlocksAt(events: seq<Event>, j: nat)
    requires j < |events|
    decreases j, 2
  {
    Blocks(ConfirmedBy(events[..j]), events[j])
  }

  /** The record agrees with what the key sets say. */
  ghost predicate Agrees(store: Option<Record>, checked: bool, blocked: bool, confirmed: Option<Confirmation>) {
    && (store.Some? <==> checked)
    && (store.Some? ==>
         && (store.value.state.Blocked? <==> blocked)
         && (store.value.confirmed.Some? <==> confirmed.Some?)
         && (confirmed.Some? ==>
               && store.value.confirmed == Some(confirmed.value.fingerprint)
               && confirmed.value.address.hostname == store.value.endpoint.hostname
               && confirmed.value.address.port == store.value.endpoint.port))
    && (store.None? ==> !blocked && confirmed.None?)
  }

  lemma VerdictMeans(known: Known, confirmed: Option<string>)
    ensures
      var v := known.Presented(confirmed);
      && (v.Revoked? <==> (confirmed.Some? && confirmed.value in known.revoked) || exists f :: known.keys == {f} && f in known.revoked)
      && (v.Absent? <==> !v.Revoked? && known.keys == {})
      && (v.Unique? <==> !v.Revoked? && exists f :: known.keys == {f})
      && (v.Unique? ==> known.keys == {v.fingerprint})
      && (v.Ambiguous? <==> !v.Revoked? && exists f, g :: f in known.keys && g in known.keys && f != g)
  {
    if known.keys != {} {
      var f :| f in known.keys;
      if known.keys != {f} {
        var g :| g in known.keys && g != f;
        assert forall h :: known.keys != {h};
      } else {
        assert forall h :: h in known.keys ==> h == f;
      }
    }
  }

  lemma CheckAgrees(store: Option<Record>, blocked: bool, confirmed: Option<Confirmation>, resolved: Endpoint, known: Known)
    requires Coherent(store) && Agrees(store, store.Some?, blocked, confirmed)
    ensures
      var e := Check(resolved, known);
      Agrees(Next(store, e), true, blocked || Blocks(confirmed, e), confirmed)
  {
    hide KnownHosts.Verdict;
    VerdictMeans(known, if store.Some? then store.value.confirmed else None);
  }

  lemma RegisterAgrees(r: Record, blocked: bool, confirmed: Option<Confirmation>, resolved: Endpoint, known: Known)
    requires Coherent(Some(r)) && Agrees(Some(r), true, blocked, confirmed)
    ensures
      var e := Register(resolved, known);
      var found := exists f :: known.keys == {f} && f !in known.revoked;
      && (confirmed.Some? || !found || blocked ==> Agrees(Next(Some(r), e), true, blocked || Blocks(confirmed, e), confirmed))
      && (confirmed.None? && found && !blocked ==>
            forall f :: known.keys == {f} ==> Agrees(Next(Some(r), e), true, false, Some(Confirmation(f, resolved))))
  {
    hide KnownHosts.Verdict;
    VerdictMeans(known, r.confirmed);
  }

  lemma BlocksAtPrefix(events: seq<Event>, m: nat, j: nat)
    requires j < m <= |events|
    ensures BlocksAt(events[..m], j) <==> BlocksAt(events, j)
  {
    hide Blocks, ConfirmedBy;
    assert events[..m][..j] == events[..j];
  }

  lemma BlockedSnoc(events: seq<Event>)
    requires events != []
    ensures
      var (past, e) := (events[..|events| - 1], events[|events| - 1]);
      BlockedBy(events) <==> BlockedBy(past) || Blocks(ConfirmedBy(past), e)
  {
    hide Blocks, ConfirmedBy;
    var m := |events| - 1;
    assert BlocksAt(events, m) <==> Blocks(ConfirmedBy(events[..m]), events[m]);
    forall j | 0 <= j < m
      ensures BlocksAt(events[..m], j) <==> BlocksAt(events, j)
    {
      BlocksAtPrefix(events, m, j);
    }
  }

  lemma CheckedSnoc(events: seq<Event>)
    requires events != []
    ensures Checked(events) <==> Checked(events[..|events| - 1]) || events[|events| - 1].Check?
  {
    var m := |events| - 1;
    forall j | 0 <= j < m
      ensures events[..m][j] == events[j]
    {
    }
  }

  lemma ConfirmedSnoc(events: seq<Event>)
    requires events != []
    ensures
      var (past, e) := (events[..|events| - 1], events[|events| - 1]);
      var first := ConfirmedBy(past).None? && e.Register? && Checked(past) && !BlockedBy(past)
        && exists f :: e.known.keys == {f} && f !in e.known.revoked;
      && (!first ==> ConfirmedBy(events) == ConfirmedBy(past))
      && (first ==> exists f :: e.known.keys == {f} && ConfirmedBy(events) == Some(Confirmation(f, e.resolved)))
  {
    hide BlockedBy, Checked;
  }

  lemma {:induction false} RunAgrees(events: seq<Event>)
    ensures Agrees(After(events), Checked(events), BlockedBy(events), ConfirmedBy(events))
    decreases |events|
  {
    hide Next, Blocks, KnownHosts.Verdict, BlocksAt;
    if events == [] {
      assert !BlockedBy(events) by { NothingBlocks(events); }
    } else {
      var m := |events| - 1;
      var past := events[..m];
      RunAgrees(past);
      RunsStayCoherent(past);
      BlockedSnoc(events);
      CheckedSnoc(events);
      ConfirmedSnoc(events);
      hide Checked, ConfirmedBy;
      match events[m] {
        case Check(resolved, known) => CheckAgrees(After(past), BlockedBy(past), ConfirmedBy(past), resolved, known);
        case Register(resolved, known) =>
          if After(past).Some? {
            RegisterAgrees(After(past).value, BlockedBy(past), ConfirmedBy(past), resolved, known);
          }
          NothingWithoutRecord(events[m]);
        case Failed => NothingWithoutRecord(events[m]); FailedChanges(After(past), ConfirmedBy(past));
      }
    }
  }

  lemma NothingBlocks(events: seq<Event>)
    requires events == []
    ensures !BlockedBy(events)
  {
  }

  lemma NothingWithoutRecord(e: Event)
    requires !e.Check?
    ensures Next(None, e) == None && !Blocks(None, e)
  {
  }

  lemma FailedChanges(store: Option<Record>, confirmed: Option<Confirmation>)
    ensures Next(store, Failed) == store && !Blocks(confirmed, Failed)
  {
  }

  /** A run ends blocked exactly when some check found the only key revoked while nothing was confirmed,
      or some check or register found a confirmed fingerprint revoked, beside another key or at another
      address. */
  lemma BlockedIff(events: seq<Event>)
    ensures After(events).Some? && After(events).value.state.Blocked? <==> BlockedBy(events)
  {
    RunAgrees(events);
  }

  /** And it ends registered exactly when something is confirmed and nothing has blocked it. */
  lemma ConfirmedAndNotBlocked(events: seq<Event>)
    ensures After(events).Some? && After(events).value.state.Registered?
      <==> ConfirmedBy(events).Some? && !BlockedBy(events)
  {
    hide BlockedBy, ConfirmedBy;
    RunAgrees(events);
    RunsStayCoherent(events);
  }

  /** A check leaves the endpoint it resolved, user and jump host included, exactly unless a fingerprint
      is confirmed for another address. */
  lemma CheckRecordsEndpointIff(events: seq<Event>, resolved: Endpoint, known: Known)
    ensures
      var c := ConfirmedBy(events);
      After(events + [Check(resolved, known)]).Some?
      && (After(events + [Check(resolved, known)]).value.endpoint == resolved
          <==> c.None? || (c.value.address.hostname == resolved.hostname && c.value.address.port == resolved.port))
  {
    hide ConfirmedBy, BlockedBy, KnownHosts.Verdict;
    RunAgrees(events);
    assert (events + [Check(resolved, known)])[..|events|] == events;
  }
}
