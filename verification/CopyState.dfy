/** Saving and restoring copy mode per pane (core/src/copy_mode.rs).

The application has one set of copy-mode fields; panes keep a saved copy.  The lemmas
follow runs of entering, leaving, editing and switching panes. */
module CopyState {
  import opened Terminal
  import opened Text

  type Cell = (nat, nat)

  /** The copy-mode fields of the application. */
  datatype Fields = Fields(
    anchor: Option<Cell>,
    anchorScrollOffset: nat,
    pos: Option<Cell>,
    scrollOffset: nat,
    selectionMode: SelectionMode,
    searchQuery: string,
    count: Option<nat>,
    searchMatches: seq<(nat, nat, nat)>,
    searchIdx: nat,
    searchForward: bool,
    findCharPending: Option<nat>,
    textObjectPending: Option<nat>,
    registerPending: bool,
    register: Option<char>)

  datatype Mode = Passthrough | CopyMode | CopySearch(input: string, forward: bool) | OtherMode(id: nat)
  {
    predicate Copying() { CopyMode? || CopySearch? }
  }

  datatype Saved = Saved(fields: Fields, inSearch: bool, searchInput: string, searchInputForward: bool)

  function Save(mode: Mode, fields: Fields): Saved {
    match mode
    case CopySearch(input, forward) => Saved(fields, true, input, forward)
    case _ => Saved(fields, false, "", true)
  }

  function RestoredMode(s: Saved): Mode {
    if s.inSearch then CopySearch(s.searchInput, s.searchInputForward) else CopyMode
  }

  /** Saving and restoring undo each other in both copy modes. */
  lemma RestoreUndoesSave(mode: Mode, fields: Fields)
    ensures Save(mode, fields).fields == fields
    ensures RestoredMode(Save(mode, fields)) == mode <==> mode.Copying()
  {
  }

  datatype State = State(mode: Mode, fields: Fields, panes: seq<Option<Saved>>, active: nat)
  {
    predicate Valid() {
      active < |panes|
    }

    /** Copy mode is on exactly when the active pane holds saved copy state. */
    predicate Coherent() {
      Valid() && (mode.Copying() <==> panes[active].Some?)
    }
  }

  function EnteredFields(f: Fields, prompt: Option<Cell>): Fields {
    f.(scrollOffset := 0, selectionMode := CharMode, anchor := None, pos := prompt, findCharPending := None,
       textObjectPending := None, registerPending := false, register := None, count := None)
  }

  datatype Step =
    | Enter(prompt: Option<Cell>)
    | Exit
    | Switch(target: nat)
    | Edit(fields: Fields, mode: Mode)

  /** Switches go to existing panes; keys handled inside copy mode stay inside copy mode. */
  predicate Allowed(s: State, step: Step) {
    match step
    case Switch(target) => target < |s.panes|
    case Edit(_, mode) => s.mode.Copying() && mode.Copying()
    case _ => true
  }

  function SaveActive(s: State): State
    requires s.Valid()
  {
    s.(panes := s.panes[s.active := Some(Save(s.mode, s.fields))])
  }

  function Arrive(s: State, wasCopying: bool): State
    requires s.Valid()
  {
    match s.panes[s.active]
    case Some(saved) => s.(fields := saved.fields, mode := RestoredMode(saved))
    case None => if wasCopying then s.(mode := Passthrough) else s
  }

  function Next(s: State, step: Step): State
    requires s.Valid() && Allowed(s, step)
  {
    match step
    case Enter(prompt) => SaveActive(s.(mode := CopyMode, fields := EnteredFields(s.fields, prompt)))
    case Exit =>
      s.(mode := Passthrough, fields := s.fields.(anchor := None, pos := None, scrollOffset := 0),
         panes := s.panes[s.active := None])
    case Switch(target) =>
      var was := s.mode.Copying();
      Arrive((if was then SaveActive(s) else s).(active := target), was)
    case Edit(fields, mode) => s.(fields := fields, mode := mode)
  }

  class App {
    var mode: Mode
    var fields: Fields
    var panes: seq<Option<Saved>>
    var active: nat

    function Model(): State
      reads this
    {
      State(mode, fields, panes, active)
    }

    constructor (fields: Fields, paneCount: nat)
      requires paneCount > 0
      ensures Model().Coherent() && mode == Passthrough && active == 0
    {
      mode, this.fields, active := Passthrough, fields, 0;
      panes := seq(paneCount, i => None);
    }

    method EnterCopyMode(prompt: Option<Cell>)
      requires Model().Valid()
      modifies this
      ensures Model() == Next(old(Model()), Enter(prompt))
      ensures mode == CopyMode && panes == old(panes)[active := Some(Save(CopyMode, fields))]
      ensures fields == Fields(None, old(fields.anchorScrollOffset), prompt, 0, CharMode, old(fields.searchQuery), None,
                               old(fields.searchMatches), old(fields.searchIdx), old(fields.searchForward), None, None, false, None)
    {
      mode := CopyMode;
      fields := fields.(scrollOffset := 0);
      fields := fields.(selectionMode := CharMode);
      fields := fields.(anchor := None);
      fields := fields.(pos := prompt);
      fields := fields.(findCharPending := None);
      fields := fields.(textObjectPending := None);
      fields := fields.(registerPending := false);
      fields := fields.(register := None);
      fields := fields.(count := None);
      SaveCopyStateToPane();
    }

    method ExitCopyMode()
      requires Model().Valid()
      modifies this
      ensures Model() == Next(old(Model()), Exit)
    {
      mode := Passthrough;
      fields := fields.(anchor := None);
      fields := fields.(pos := None);
      fields := fields.(scrollOffset := 0);
      panes := panes[active := None];
    }

    method SaveCopyStateToPane()
      requires Model().Valid()
      modifies this`panes
      ensures Model() == SaveActive(old(Model()))
    {
      var inSearch, input, forward := false, "", true;
      if mode.CopySearch? {
        inSearch, input, forward := true, mode.input, mode.forward;
      }
      panes := panes[active := Some(Saved(fields, inSearch, input, forward))];
    }

    method RestoreCopyStateFromPane()
      requires Model().Valid()
      modifies this`mode, this`fields
      ensures Model() == Arrive(old(Model()), true)
    {
      match panes[active] {
        case Some(saved) =>
          fields := saved.fields;
          if saved.inSearch {
            mode := CopySearch(saved.searchInput, saved.searchInputForward);
          } else {
            mode := CopyMode;
          }
        case None =>
          mode := Passthrough;
      }
    }

    /** `target` is the pane the focus change passed in by the caller ends on. */
    method SwitchWithCopySave(target: nat)
      requires Model().Valid() && target < |panes|
      modifies this
      ensures Model() == Next(old(Model()), Switch(target))
    {
      var wasCopy := mode.CopyMode? || mode.CopySearch?;
      if wasCopy {
        SaveCopyStateToPane();
      }
      active := target;
      if panes[active].Some? {
        RestoreCopyStateFromPane();
      } else if wasCopy {
        mode := Passthrough;
      }
    }
  }

  // ----- runs -----

  predicate AllAllowed(s: State, steps: seq<Step>)
    requires s.Valid()
    decreases |steps|
  {
    steps == [] || (Allowed(s, steps[0]) && AllAllowed(Next(s, steps[0]), steps[1..]))
  }

  function Run(s: State, steps: seq<Step>): (r: State)
    requires s.Valid() && AllAllowed(s, steps)
    ensures r.Valid() && |r.panes| == |s.panes|
    decreases |steps|
  {
    if steps == [] then s else Run(Next(s, steps[0]), steps[1..])
  }

  lemma {:induction false} CopyModeIffSaved(s: State, steps: seq<Step>)
    requires s.Coherent() && AllAllowed(s, steps)
    ensures Run(s, steps).Coherent()
    decreases |steps|
  {
    if steps != [] {
      CopyModeIffSaved(Next(s, steps[0]), steps[1..]);
    }
  }

  /** One step leaves the saved state of every pane but the active one alone. */
  lemma OnlyActivePaneChanges(s: State, step: Step, pane: nat)
    requires s.Valid() && Allowed(s, step) && pane < |s.panes| && pane != s.active
    ensures Next(s, step).panes[pane] == s.panes[pane]
  {
  }

  /** Pane `pane` is never the active one before any of the steps. */
  predicate Away(s: State, steps: seq<Step>, pane: nat)
    requires s.Valid() && AllAllowed(s, steps)
    decreases |steps|
  {
    steps == [] || (s.active != pane && Away(Next(s, steps[0]), steps[1..], pane))
  }

  lemma {:induction false} AwayKeepsSaved(s: State, steps: seq<Step>, pane: nat)
    requires s.Valid() && AllAllowed(s, steps) && Away(s, steps, pane) && pane < |s.panes|
    ensures Run(s, steps).panes[pane] == s.panes[pane]
    decreases |steps|
  {
    if steps != [] {
      OnlyActivePaneChanges(s, steps[0], pane);
      AwayKeepsSaved(Next(s, steps[0]), steps[1..], pane);
    }
  }

  /** Leave a pane in copy or search mode, do anything elsewhere, come back by a switch: every
      copy field, the mode and the search input are as they were. */
  lemma LeaveAndReturn(s: State, away: seq<Step>, target: nat)
    requires s.Coherent() && s.mode.Copying() && target < |s.panes| && target != s.active
    requires AllAllowed(Next(s, Switch(target)), away) && Away(Next(s, Switch(target)), away, s.active)
    ensures
      var there := Run(Next(s, Switch(target)), away);
      there.active != s.active ==>
        var back := Next(there, Switch(s.active));
        back.mode == s.mode && back.fields == s.fields && back.active == s.active
  {
    var gone := Next(s, Switch(target));
    var there := Run(gone, away);
    RestoreUndoesSave(s.mode, s.fields);
    assert gone.panes[s.active] == Some(Save(s.mode, s.fields));
    AwayKeepsSaved(gone, away, s.active);
    if there.active != s.active {
      OnlyActivePaneChanges(there, Switch(s.active), s.active);
    }
  }
}
