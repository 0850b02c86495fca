/**
 * The script once started: the state store, the modal stack, the stylesheet
 * kept in step with the selection, and the keyboard handlers that drive them
 * (the triple-shift gesture and Escape on the document, shortcut keys and
 * Backspace/Delete in the selection view), plus the form and click actions
 * that call the store.
 */
module Controller {
  import opened Wrappers
  import opened Groups
  import opened GroupStore
  import opened Highlight
  import opened ModalStack
  import opened Forms

  /** The views the modal stack holds. */
  datatype View = SelectionForm | ConfigurationForm(target: FormTarget)

  /** A key code naming either shift key ("ShiftLeft", "ShiftRight"). */
  function IsShiftCode(code: string): (b: bool)
    ensures b <==> (if |code| < 5 then code else code[..5]) == "Shift"
    ensures code == "ShiftLeft" || code == "ShiftRight" ==> b
    ensures code == "Escape" ==> !b
  {
    assert "Escape"[..5][0] == 'E';
    |code| >= 5 && code[..5] == "Shift"
  }

  /** What the document key handler depends on and changes: the consecutive-shift
      count and the modal stack. */
  datatype KeyState = KeyState(shiftCount: nat, stack: seq<View>)

  /** The document key handler: a shift key with the modal closed counts up, any
      other key, or any key while the modal is open, resets the count; the third
      count resets it and opens the selection view; Escape closes one level. */
  function KeyDownStep(s: KeyState, code: string): (t: KeyState)
    ensures t.shiftCount <= 2
    ensures !(IsShiftCode(code) && s.stack == []) ==> t.shiftCount == 0
    ensures IsShiftCode(code) && s.stack == [] && s.shiftCount < 2 ==> t.shiftCount == s.shiftCount + 1
    ensures IsShiftCode(code) && s.stack == [] && s.shiftCount >= 2 ==> t.shiftCount == 0
    ensures code == "Escape" ==> t.stack == Pop(s.stack)
    ensures |t.stack| > |s.stack| <==> IsShiftCode(code) && s.stack == [] && s.shiftCount >= 2
    ensures |t.stack| > |s.stack| ==> t.stack == [SelectionForm]
    ensures code != "Escape" && |t.stack| <= |s.stack| ==> t.stack == s.stack
  {
    var count := if IsShiftCode(code) && s.stack == [] then s.shiftCount + 1 else 0;
    var afterShift := if count >= 3 then KeyState(0, s.stack + [SelectionForm]) else KeyState(count, s.stack);
    if code == "Escape" then afterShift.(stack := Pop(afterShift.stack)) else afterShift
  }

  /** The state after a run of key presses, oldest first. */
  function RunKeys(s: KeyState, codes: seq<string>): KeyState
    decreases |codes|
  {
    if codes == [] then s else KeyDownStep(RunKeys(s, codes[..|codes| - 1]), codes[|codes| - 1])
  }

  /** How many shift presses end the run without another key after them. */
  function TrailingShifts(codes: seq<string>): nat
    decreases |codes|
  {
    if codes == [] || !IsShiftCode(codes[|codes| - 1]) then 0
    else 1 + TrailingShifts(codes[..|codes| - 1])
  }

  /** No count and no open view: the state when the handler is bound. */
  function Idle(): KeyState {
    KeyState(0, [])
  }

  /** The modal stays closed after every prefix of the run. */
  predicate StaysClosed(codes: seq<string>) {
    forall p :: 0 <= p <= |codes| ==> RunKeys(Idle(), codes[..p]).stack == []
  }

  lemma StaysClosedPrefix(codes: seq<string>)
    requires codes != [] && StaysClosed(codes)
    ensures StaysClosed(codes[..|codes| - 1])
  {
    var init := codes[..|codes| - 1];
    forall p | 0 <= p <= |init|
      ensures RunKeys(Idle(), init[..p]).stack == []
    {
      assert init[..p] == codes[..p];
    }
  }

  /** While the modal stays closed the count is the number of trailing shift
      presses, which never reaches three. */
  lemma {:induction false} ClosedRunCountsShifts(codes: seq<string>)
    requires StaysClosed(codes)
    ensures RunKeys(Idle(), codes).shiftCount == TrailingShifts(codes)
    ensures TrailingShifts(codes) <= 2
  {
    if codes != [] {
      var init := codes[..|codes| - 1];
      StaysClosedPrefix(codes);
      ClosedRunCountsShifts(init);
      assert codes[..|codes|] == codes;
      assert RunKeys(Idle(), init).stack == [] by {
        assert codes[..|init|] == init;
      }
    }
  }

  /** After a run that kept the modal closed, the next key opens the selection view
      exactly when it is a shift key and the two keys before it were shift keys. */
  lemma OpensOnThirdShift(codes: seq<string>, code: string)
    requires StaysClosed(codes)
    ensures RunKeys(Idle(), codes + [code]).stack == (if IsShiftCode(code) && TrailingShifts(codes) == 2 then [SelectionForm] else [])
  {
    ClosedRunCountsShifts(codes);
    var all := codes + [code];
    assert all[..|all| - 1] == codes;
    assert RunKeys(Idle(), codes).stack == [] by {
      assert codes[..|codes|] == codes;
    }
  }

  /** Shift, Shift, X, Shift, Shift keeps the modal closed; one more Shift opens it. */
  lemma TripleShiftExample()
    ensures StaysClosed(["ShiftLeft", "ShiftLeft", "KeyX", "ShiftLeft", "ShiftRight"])
    ensures RunKeys(Idle(), ["ShiftLeft", "ShiftLeft", "KeyX", "ShiftLeft", "ShiftRight", "ShiftLeft"]).stack == [SelectionForm]
  {
    var codes := ["ShiftLeft", "ShiftLeft", "KeyX", "ShiftLeft", "ShiftRight"];
    assert IsShiftCode("ShiftLeft") && IsShiftCode("ShiftRight") && !IsShiftCode("KeyX");
    forall p | 0 <= p <= |codes|
      ensures RunKeys(Idle(), codes[..p]).stack == []
    {
      if p > 0 { assert codes[..p][..p - 1] == codes[..p - 1]; }
      if p > 0 { ClosedUpTo(codes, p); }
    }
    assert TrailingShifts(codes) == 2 by {
      assert codes[..4] == ["ShiftLeft", "ShiftLeft", "KeyX", "ShiftLeft"];
      assert codes[..4][..3] == ["ShiftLeft", "ShiftLeft", "KeyX"];
    }
    OpensOnThirdShift(codes, "ShiftLeft");
    assert codes + ["ShiftLeft"] == ["ShiftLeft", "ShiftLeft", "KeyX", "ShiftLeft", "ShiftRight", "ShiftLeft"];
  }

  /** The key that opens the selection view leaves no count behind, so closing it
      again by any means returns the handler to its start: three fresh shifts are
      needed to reopen it. */
  lemma OpenLeavesNoCount(s: KeyState, code: string)
    requires s.stack == [] && |KeyDownStep(s, code).stack| > |s.stack|
    ensures KeyDownStep(s, code) == KeyState(0, [SelectionForm])
    ensures KeyState(KeyDownStep(s, code).shiftCount, Pop(KeyDownStep(s, code).stack)) == Idle()
  {
  }

  /** Shift three times, dismiss the view with a click, then shift once: the modal stays closed. */
  lemma DismissThenShiftStaysClosed()
    ensures var shown := RunKeys(Idle(), ["ShiftLeft", "ShiftLeft", "ShiftLeft"]);
            shown == KeyState(0, [SelectionForm]) &&
            KeyDownStep(KeyState(shown.shiftCount, Pop(shown.stack)), "ShiftLeft") == KeyState(1, [])
  {
    var codes := ["ShiftLeft", "ShiftLeft", "ShiftLeft"];
    assert codes[..2] == ["ShiftLeft", "ShiftLeft"] && codes[..2][..1] == ["ShiftLeft"];
    assert RunKeys(Idle(), codes[..2][..1]) == KeyState(1, []);
    assert RunKeys(Idle(), codes[..2]) == KeyState(2, []);
  }

  lemma ClosedUpTo(codes: seq<string>, p: nat)
    requires codes == ["ShiftLeft", "ShiftLeft", "KeyX", "ShiftLeft", "ShiftRight"]
    requires 0 < p <= |codes|
    ensures RunKeys(Idle(), codes[..p]).stack == []
    ensures RunKeys(Idle(), codes[..p]).shiftCount == [1, 2, 0, 1, 2][p - 1]
  {
    assert IsShiftCode("ShiftLeft") && IsShiftCode("ShiftRight") && !IsShiftCode("KeyX");
    assert codes[..p][..p - 1] == codes[..p - 1];
    if p > 1 { ClosedUpTo(codes, p - 1); }
  }

  /** Some group's shortcut equals the key. */
  predicate AnyShortcut(gs: seq<Group>, key: string) {
    exists k :: 0 <= k < |gs| && gs[k].shortcut == key
  }

  /** With shortcuts a, a, b, pressing "a" selects the first two groups and deselects the third. */
  lemma ShortcutExample(g1: Group, g2: Group, g3: Group)
    requires g1.shortcut == "a" && g2.shortcut == "a" && g3.shortcut == "b"
    ensures var r := SelectMatching([g1, g2, g3], Lower("A"));
            r[0].isSelected && r[1].isSelected && !r[2].isSelected
  {
    assert Lower("A") == "a";
  }

  /** Selecting exactly the matching indexes of a list is `SelectMatching`. */
  lemma SelectingMatchesIsSelectMatching(before: seq<Group>, key: string, after: seq<Group>)
    requires |after| == |before|
    requires forall k :: 0 <= k < |before| ==>
      after[k] == WithSelection(before[k], k in MatchingIndexes(before, key))
    ensures after == SelectMatching(before, key)
  {
    var matching := MatchingIndexes(before, key);
    forall k | 0 <= k < |before|
      ensures after[k] == SelectMatching(before, key)[k]
    {
      if k in matching {
        var j :| 0 <= j < |matching| && matching[j] == k;
      }
    }
  }

  /** A second write to a storage slot replaces the first. */
  lemma OverwriteTwice<K, V>(m: map<K, V>, k: K, a: V, b: V)
    ensures m[k := a][k := b] == m[k := b]
  {
  }

  /** Clearing the selection removes every rule. */
  lemma ClearedSelectionHasNoRules(gs: seq<Group>, mute: bool)
    ensures Rules(ClearSelection(gs), mute) == []
  {
    RulesEmptyIff(ClearSelection(gs), mute);
  }

  class App {
    const store: Store
    const modal: Modal<View>
    /** The consecutive-shift count of the document key handler. */
    var shiftCount: nat
    /** The rules the injected stylesheet holds. */
    var style: seq<Rule>

    /** The dialog shows the stack's top, the count is below three, and the stylesheet
        matches the current selection and mute flag. */
    ghost predicate Valid()
      reads this, store, modal
    {
      modal.Valid() && shiftCount <= 2 && style == Rules(store.groups, store.muteUnselectedChannels)
    }

    function Keys(): KeyState
      reads this, modal
    {
      KeyState(shiftCount, modal.stack)
    }

    /** Start-up once the host page is ready: load the stored state, compute the
        stylesheet once, and bind the key handler with a zero count. */
    constructor (teamId: string, storage: map<string, WorkspaceState>)
      ensures Valid() && fresh(store) && fresh(modal)
      ensures store.teamId == teamId && store.storage == storage && store.log == []
      ensures StorageKey(teamId) in storage ==> store.Snapshot() == storage[StorageKey(teamId)]
      ensures StorageKey(teamId) !in storage ==> store.Snapshot() == DefaultState()
      ensures modal.stack == [] && shiftCount == 0
    {
      store := new Store(teamId, storage);
      modal := new Modal();
      shiftCount := 0;
      style := [];
      new;
      store.Init();
      style := ComputeRules(store.groups, store.muteUnselectedChannels);
    }

    /** The selection-update listener: rebuilds the stylesheet from the store. */
    method RefreshStyle()
      modifies this`style
      ensures style == Rules(store.groups, store.muteUnselectedChannels)
    {
      style := ComputeRules(store.groups, store.muteUnselectedChannels);
    }

    /** The document key-down handler. */
    method KeyDown(code: string)
      requires Valid()
      modifies this, modal
      ensures Valid()
      ensures Keys() == KeyDownStep(old(Keys()), code)
      ensures style == old(style)
    {
      ghost var before := Keys();
      var isEscape := code == "Escape";
      var isShift := IsShiftCode(code);
      var showing := modal.IsShowing();
      shiftCount := if isShift && !showing then shiftCount + 1 else 0;
      if shiftCount >= 3 {
        shiftCount := 0;
        modal.Show(SelectionForm);
      }
      if isEscape {
        modal.Hide();
      }
      assert Keys() == KeyDownStep(before, code);
    }

    /** A key press in the selection view: when some shortcut equals the lower-cased
        key, deselect everything, select each matching group, and close one level;
        otherwise do nothing. */
    method SelectionKeyPress(key: string)
      requires Valid()
      modifies this, store, modal
      ensures Valid() && shiftCount == old(shiftCount)
      ensures store.muteUnselectedChannels == old(store.muteUnselectedChannels)
      ensures AnyShortcut(old(store.groups), Lower(key)) ==>
        && store.groups == SelectMatching(old(store.groups), Lower(key))
        && modal.stack == Pop(old(modal.stack))
        && store.log == old(store.log) +
             SelectionWrites(|old(store.groups)| + |MatchingIndexes(old(store.groups), Lower(key))|)
        && store.storage == old(store.storage)[StorageKey(store.teamId) := store.Snapshot()]
      ensures !AnyShortcut(old(store.groups), Lower(key)) ==>
        && store.groups == old(store.groups) && store.log == old(store.log)
        && store.storage == old(store.storage) && modal.stack == old(modal.stack)
        && style == old(style)
    {
      assert modal.Valid() && style == Rules(store.groups, store.muteUnselectedChannels);
      var lowered := Lower(key);
      var matching := MatchingIndexes(store.groups, lowered);
      if |matching| > 0 {
        assert store.groups[matching[0]].shortcut == lowered;
        SelectMatchingAndClose(lowered, matching);
        RefreshStyle();
      } else {
        assert !AnyShortcut(store.groups, lowered);
      }
    }

    /** The store and modal half of the key-press handler: deselect everything, select
        each group whose shortcut is `key` (a write and a notification per step), then
        close one level. */
    method SelectMatchingAndClose(key: string, matching: seq<nat>)
      requires matching == MatchingIndexes(store.groups, key) && |matching| > 0
      requires modal.Valid()
      modifies store, modal
      ensures modal.Valid() && modal.stack == Pop(old(modal.stack))
      ensures store.groups == SelectMatching(old(store.groups), key)
      ensures store.muteUnselectedChannels == old(store.muteUnselectedChannels)
      ensures store.log == old(store.log) + SelectionWrites(|old(store.groups)| + |matching|)
      ensures store.storage == old(store.storage)[StorageKey(store.teamId) := store.Snapshot()]
    {
      ghost var before, log0, storage0 := store.groups, store.log, store.storage;
      store.ClearGroupSelection();
      ghost var log1, storage1 := store.log, store.storage;
      MatchingIndexesAscending(before, key);
      SelectEach(matching);
      ghost var slot := StorageKey(store.teamId);
      OverwriteTwice(storage0, slot, storage1[slot], store.Snapshot());
      SelectingMatchesIsSelectMatching(before, key, store.groups);
      SelectionWritesAdd(|before|, |matching|);
      assert store.log == (log0 + SelectionWrites(|before|)) + SelectionWrites(|matching|);
      modal.Hide();
    }

    /** The loop of the key-press handler: toggles each matching index in turn, on a
        list whose selection was just cleared. */
    method SelectEach(matching: seq<nat>)
      requires forall j :: 0 <= j < |matching| ==> matching[j] < |store.groups|
      requires forall i, j :: 0 <= i < j < |matching| ==> matching[i] < matching[j]
      requires forall k :: 0 <= k < |store.groups| ==> !store.groups[k].isSelected
      requires |matching| > 0 && store.Synced()
      modifies store
      ensures |store.groups| == |old(store.groups)|
      ensures forall k :: 0 <= k < |old(store.groups)| ==>
        store.groups[k] == WithSelection(old(store.groups)[k], k in matching)
      ensures store.muteUnselectedChannels == old(store.muteUnselectedChannels)
      ensures store.log == old(store.log) + SelectionWrites(|matching|)
      ensures store.storage == old(store.storage)[StorageKey(store.teamId) := store.Snapshot()]
    {
      var j := 0;
      while j < |matching|
        invariant 0 <= j <= |matching|
        invariant |store.groups| == |old(store.groups)|
        invariant forall k :: 0 <= k < |old(store.groups)| ==>
          store.groups[k] == WithSelection(old(store.groups)[k], k in matching[..j])
        invariant store.muteUnselectedChannels == old(store.muteUnselectedChannels)
        invariant store.log == old(store.log) + SelectionWrites(j)
        invariant j > 0 ==> store.storage == old(store.storage)[StorageKey(store.teamId) := store.Snapshot()]
        invariant j == 0 ==> store.storage == old(store.storage)
      {
        assert matching[j] !in matching[..j];
        assert matching[..j + 1] == matching[..j] + [matching[j]];
        store.ToggleGroupSelection(matching[j]);
        SelectionWritesAdd(j, 1);
        j := j + 1;
      }
      assert matching[..j] == matching;
    }

    /** A key-down in the selection view: Backspace or Delete deselects every group and
        closes one level; other keys do nothing here. */
    method SelectionKeyDown(code: string)
      requires Valid()
      modifies this, store, modal
      ensures Valid() && shiftCount == old(shiftCount)
      ensures store.muteUnselectedChannels == old(store.muteUnselectedChannels)
      ensures code == "Backspace" || code == "Delete" ==>
        && store.groups == ClearSelection(old(store.groups))
        && modal.stack == Pop(old(modal.stack))
        && store.log == old(store.log) + SelectionWrites(|old(store.groups)|)
        && (|old(store.groups)| > 0 ==>
              store.storage == old(store.storage)[StorageKey(store.teamId) := store.Snapshot()])
        && (|old(store.groups)| == 0 ==> store.storage == old(store.storage))
        && style == []
      ensures !(code == "Backspace" || code == "Delete") ==>
        && store.groups == old(store.groups) && store.log == old(store.log)
        && store.storage == old(store.storage) && modal.stack == old(modal.stack)
    {
      assert modal.Valid() && style == Rules(store.groups, store.muteUnselectedChannels);
      if code == "Backspace" || code == "Delete" {
        var hadGroups := |store.groups| > 0;
        ClearAndClose();
        ClearedSelectionHasNoRules(old(store.groups), store.muteUnselectedChannels);
        if hadGroups {
          RefreshStyle();
        }
      }
    }

    /** The store and modal half of the Backspace/Delete handler: clear the selection
        (a write and a notification per group), then close one level. */
    method ClearAndClose()
      requires modal.Valid()
      modifies store, modal
      ensures modal.Valid() && modal.stack == Pop(old(modal.stack))
      ensures store.groups == ClearSelection(old(store.groups))
      ensures store.muteUnselectedChannels == old(store.muteUnselectedChannels)
      ensures store.log == old(store.log) + SelectionWrites(|old(store.groups)|)
      ensures |old(store.groups)| > 0 ==>
        store.storage == old(store.storage)[StorageKey(store.teamId) := store.Snapshot()]
      ensures |old(store.groups)| == 0 ==>
        store.storage == old(store.storage) && store.groups == old(store.groups)
    {
      store.ClearGroupSelection();
      modal.Hide();
    }

    /** Opens the configuration form, for a new group or for entry `index`. */
    method OpenConfigurationForm(index: Option<nat>)
      requires Valid()
      requires index.Some? ==> index.value < |store.groups|
      modifies modal
      ensures Valid()
      ensures modal.stack == old(modal.stack) + [ConfigurationForm(
        if index.None? then NewGroup else ExistingGroup(index.value, store.groups[index.value]))]
    {
      var target := if index.None? then NewGroup else ExistingGroup(index.value, store.groups[index.value]);
      modal.Show(ConfigurationForm(target));
    }

    /** Saving the configuration form: add the new group, or replace the edited entry
        (keeping its selection flag), then close the form. */
    method SubmitConfiguration(target: FormTarget, name: string, color: string,
                               hostChannels: seq<string>, ticked: set<string>, shortcut: string)
      requires Valid()
      modifies this, store, modal
      ensures Valid() && shiftCount == old(shiftCount)
      ensures store.muteUnselectedChannels == old(store.muteUnselectedChannels)
      ensures modal.stack == Pop(old(modal.stack))
      ensures var g := SubmittedGroup(target, name, color, TickedChannels(hostChannels, ticked), shortcut);
        match target
        case NewGroup =>
          && store.groups == old(store.groups) + [g]
          && store.log == old(store.log) + [Persisted, GroupUpdateNotified]
          && store.storage == old(store.storage)[StorageKey(store.teamId) := store.Snapshot()]
          && style == old(style)
        case ExistingGroup(index, _) =>
          && store.groups == ReplaceAt(old(store.groups), index, g)
          && (InRange(old(store.groups), index) ==>
                store.log == old(store.log) + [Persisted, GroupUpdateNotified, SelectionUpdateNotified] &&
                store.storage == old(store.storage)[StorageKey(store.teamId) := store.Snapshot()])
          && (!InRange(old(store.groups), index) ==>
                store.log == old(store.log) && store.storage == old(store.storage))
    {
      var g := SubmittedGroup(target, name, color, TickedChannels(hostChannels, ticked), shortcut);
      match target {
        case NewGroup =>
          AddUnselectedKeepsRules(store.groups, g, store.muteUnselectedChannels);
          store.AddGroup(g);
        case ExistingGroup(index, _) =>
          var inRange := index < |store.groups|;
          store.UpdateGroup(index, g);
          if inRange {
            RefreshStyle();
          }
      }
      modal.Hide();
    }

    /** A group's checkbox in the selection view. */
    method ToggleGroup(index: int)
      requires Valid()
      modifies this, store
      ensures Valid() && shiftCount == old(shiftCount)
      ensures store.groups == ToggleAt(old(store.groups), index)
      ensures store.muteUnselectedChannels == old(store.muteUnselectedChannels)
      ensures InRange(old(store.groups), index) ==>
        store.log == old(store.log) + SelectionWrites(1) &&
        store.storage == old(store.storage)[StorageKey(store.teamId) := store.Snapshot()]
      ensures !InRange(old(store.groups), index) ==>
        store.log == old(store.log) && store.storage == old(store.storage) && style == old(style)
    {
      var inRange := 0 <= index < |store.groups|;
      store.ToggleGroupSelection(index);
      if inRange {
        RefreshStyle();
      }
    }

    /** The "mute unselected channels" checkbox. */
    method ToggleMute()
      requires Valid()
      modifies this, store
      ensures Valid() && shiftCount == old(shiftCount)
      ensures store.groups == old(store.groups)
      ensures store.muteUnselectedChannels == !old(store.muteUnselectedChannels)
      ensures store.log == old(store.log) + SelectionWrites(1)
      ensures store.storage == old(store.storage)[StorageKey(store.teamId) := store.Snapshot()]
    {
      store.ToggleMuteUnselectedChannels();
      RefreshStyle();
    }

    /** A group's delete button, once the user has confirmed. */
    method RemoveGroup(index: int)
      requires Valid()
      modifies this, store
      ensures Valid() && shiftCount == old(shiftCount)
      ensures store.groups == RemoveAt(old(store.groups), index)
      ensures store.muteUnselectedChannels == old(store.muteUnselectedChannels)
      ensures InRange(old(store.groups), index) ==>
        store.log == old(store.log) + [Persisted, GroupUpdateNotified, SelectionUpdateNotified] &&
        store.storage == old(store.storage)[StorageKey(store.teamId) := store.Snapshot()]
      ensures !InRange(old(store.groups), index) ==>
        store.log == old(store.log) && store.storage == old(store.storage) && style == old(style)
    {
      var inRange := 0 <= index < |store.groups|;
      store.RemoveGroup(index);
      if inRange {
        RefreshStyle();
      }
    }

    /** The close button, a click outside the dialog, or the form's cancel button. */
    method Dismiss()
      requires Valid()
      modifies modal
      ensures Valid() && modal.stack == Pop(old(modal.stack))
    {
      modal.Hide();
    }
  }
}
