# Slack Groups, modelled in Dafny

Slack Groups is a userscript for the Slack web client. The user defines named
groups of sidebar channels, each with a colour and an optional one-key
shortcut. Selecting groups injects a stylesheet that shows the channels of
the selected groups at full opacity, in the group's colour. When "mute
unselected channels" is on, every other channel is faded. A modal dialog
opens on three consecutive shift presses. It hosts a selection view (a
checkbox per group, shortcut keys, Backspace/Delete to clear) and a
configuration form (name, colour, shortcut, channels). Everything is stored
per Slack workspace in the browser's key-value storage.

The project models the script's core:

- `groups.dfy`: the `Group` and persisted `WorkspaceState` records, and the
  list edits the store applies.
- `store.dfy`: the state store, as a class. Its fields are the groups, the
  mute flag and the storage map. It also keeps a log of writes and listener
  notifications, in order.
- `highlight.dfy`: the highlight rule generator. `Rules` specifies the
  rules, and `ComputeRules` is the loop the style updater runs. The file
  also gives what the rules mean once the stylesheet cascade has run: the
  opacity and the colour each channel ends up with.
- `modal.dfy`: the modal stack, as a class holding the stack and what the
  dialog displays.
- `forms.dfy`:
  - the filter of the shortcut input;
  - the matching of a key in the selection view;
  - the defaults and the submitted value of the configuration form.
- `controller.dfy`:
  - the document key handler, as a step function over (shift count, stack);
  - the class `App`, which wires store, modal and stylesheet together the way
    the start-up code and the event handlers do. Its invariant says that the
    dialog shows the top of the stack, that the shift count stays below
    three, and that the stylesheet always equals `Rules` of the current
    groups and mute flag.
- `wrappers.dfy`: `Option`.

Inputs the script reads from the page or the browser are parameters:

- the workspace's team id;
- the contents of storage at start-up;
- the host's channel ids;
- key names and codes;
- the values of the form's inputs.

Listener notifications become entries of the store's log. The
selection-update listener is the style updater; `App` runs it after each
store call that notified.

## Model

| member | source | states |
|---|---|---|
| GroupStore.StorageKey | slack-groups.user.js:50-52 | the key is the namespace, then "::", then the team id (length, prefix, separator and suffix) |
| GroupStore.StorageKeyInjective | slack-groups.user.js:50-52 | two workspaces share a storage slot exactly when their team ids are equal |
| GroupStore.SelectionWritesAdd | slack-groups.user.js:109-123 | the effects of n selection writes followed by m of them are those of n + m |
| GroupStore.Store.constructor | slack-groups.user.js:41-45 | a fresh store holds no groups with muting on, an empty log and the given storage |
| GroupStore.Store.Init | slack-groups.user.js:54-61 | a stored record for this workspace replaces the state; without one the defaults stay; nothing is written |
| GroupStore.Store.Persist | slack-groups.user.js:79-81 | the current state overwrites this workspace's slot, and no other slot changes |
| GroupStore.Store.AddGroup | slack-groups.user.js:85-89 | the group is appended, written, and only the group-update listeners are notified |
| GroupStore.Store.UpdateGroup | slack-groups.user.js:91-98 | in range: entry replaced, written, group-update then selection-update notified; out of range: nothing changes and nothing is logged |
| GroupStore.Store.RemoveGroup | slack-groups.user.js:100-107 | in range: entry deleted with later entries shifted down, written, both listener classes notified; out of range: no change |
| GroupStore.Store.ToggleGroupSelection | slack-groups.user.js:109-115 | in range: only that entry's flag flips, one write and one selection notification; out of range: no change |
| GroupStore.Store.ClearGroupSelection | slack-groups.user.js:117-123 | every group is deselected with its other fields kept; one write and one selection notification per group, so an empty list logs nothing and leaves storage alone |
| GroupStore.Store.ToggleMuteUnselectedChannels | slack-groups.user.js:127-131 | the flag flips, the groups stay, one write and one selection notification |
| Groups.DefaultState | slack-groups.user.js:41-45 | a workspace with nothing stored starts with no groups and muting on |
| Groups.ReplaceAt | slack-groups.user.js:91-98 | same length; entry `index` is the new group and every other entry is kept |
| Groups.RemoveAt | slack-groups.user.js:100-107 | one shorter; entries before `index` kept, later ones shifted down by one; out of range the list is unchanged |
| Groups.RemoveAtDropsOne | slack-groups.user.js:100-107 | removal takes out exactly that one group, as multisets |
| Groups.ToggleAt | slack-groups.user.js:109-115 | same length; in range, only entry `index` changes, its flag flipped and its other fields kept; out of range the list is unchanged |
| Groups.ToggleAtFlipsOnlySelection | slack-groups.user.js:109-115 | the toggled entry differs from the old one only in its flipped selection flag |
| Groups.ToggleTwice | slack-groups.user.js:109-115 | toggling the same index twice restores the list, in range or not |
| Groups.ClearSelection | slack-groups.user.js:117-123 | same length, nothing selected, every entry equal to the old one apart from its flag |
| Groups.ClearSelectionIdempotent | slack-groups.user.js:117-123 | clearing twice is clearing once |
| Highlight.SelectedGroups | slack-groups.user.js:737 | the filtered list is no longer than the groups |
| Highlight.SelectedGroupsMembers | slack-groups.user.js:737 | the filtered list holds exactly the groups whose flag is set |
| Highlight.SelectedGroupsAppend | slack-groups.user.js:737 | filtering keeps list order: filtering a concatenation concatenates the filtered parts |
| Highlight.MuteRules | slack-groups.user.js:741-748 | there are two muting rules exactly when muting is on and some group is selected, and none otherwise |
| Highlight.GroupRules | slack-groups.user.js:750-759 | two rules per selected group |
| Highlight.Rules | slack-groups.user.js:737-759 | without muting, two rules per selected group; with muting and a selection, dim and restore-active first, then two per selected group |
| Highlight.GroupRulesAt | slack-groups.user.js:750-759 | selected group j contributes the opacity rule at 2j and the colour rule at 2j + 1 |
| Highlight.ComputeRules | slack-groups.user.js:736-761 | the updater's loop produces exactly `Rules` of the groups and the mute flag |
| Highlight.RulesEmptyIff | slack-groups.user.js:741-759 | there are no rules at all exactly when no group is selected, whatever the mute flag |
| Highlight.RulesLayout | slack-groups.user.js:741-759 | the dim and restore-active pair comes first when muting applies, then one opacity and one colour rule per selected group, in list order |
| Highlight.SelectedListedIff | slack-groups.user.js:737-759 | a selected group lists the channel exactly when the filtered list does |
| Highlight.RulesMentionOnlyHighlighted | slack-groups.user.js:750-759 | a channel appears in some rule exactly when a selected group lists it |
| Highlight.MentionedInGroupRules | slack-groups.user.js:750-759 | the per-group rules mention a channel exactly when one of the filtered groups lists it |
| Highlight.ShadeOfGroupRules | slack-groups.user.js:750-757 | after any prefix, the group rules make a channel opaque when a group lists it, and otherwise leave the prefix's verdict |
| Highlight.ColorOfGroupRules | slack-groups.user.js:750-758 | after any prefix, the last listing group's colour wins; otherwise the prefix decides |
| Highlight.LastColorOfSelected | slack-groups.user.js:737-758 | the last filtered group listing a channel is the last selected group listing it |
| Highlight.ShadeMeaning | slack-groups.user.js:741-759 | a channel is opaque if a selected group lists it; else, when muting applies, faded unless it is the active item; else the host's own opacity |
| Highlight.ColorMeaning | slack-groups.user.js:741-759 | a channel takes the colour of the last selected group listing it, and the mute flag plays no part |
| Highlight.AddUnselectedKeepsRules | slack-groups.user.js:85-89 | appending an unselected group leaves the rules unchanged |
| Highlight.ExampleRules | slack-groups.user.js:736-761 | groups A (selected, channels 1 and 2) and B (unselected) with muting on give dim, restore-active, then A's two rules |
| ModalStack.Pop | slack-groups.user.js:255-258 | popping a non-empty stack removes exactly its top; popping an empty stack leaves it empty |
| ModalStack.ShowThenHide | slack-groups.user.js:250-258 | showing a view, then hiding, restores the stack, and while shown the view is on top |
| ModalStack.Modal.constructor | slack-groups.user.js:213-232 | a new dialog has an empty stack and displays nothing |
| ModalStack.Modal.Render | slack-groups.user.js:233-246 | the dialog is visible exactly when the stack is non-empty and then shows the top; when hidden the attached content stays |
| ModalStack.Modal.IsShowing | slack-groups.user.js:248 | true exactly when the stack is non-empty, which is exactly when something is displayed |
| ModalStack.Modal.Show | slack-groups.user.js:250-253 | the view is pushed and displayed |
| ModalStack.Modal.Hide | slack-groups.user.js:255-258 | the top is popped and the new top, or nothing, is displayed |
| Forms.LowerChar | slack-groups.user.js:309 | ASCII capitals map to the small letter 32 code points up; every other character is kept |
| Forms.LowerIdempotent | slack-groups.user.js:309 | lower-casing twice is lower-casing once |
| Forms.Lower | slack-groups.user.js:454 | the key name keeps its length and holds no ASCII capital: each capital becomes the letter 32 code points up, every other character is kept |
| Forms.ShortcutKeyPress | slack-groups.user.js:305-311 | a single letter or digit replaces the value, lower-cased; any other key leaves it as it was; a valid value stays valid |
| Forms.ShortcutMatchesItsKey | slack-groups.user.js:305-311 | a shortcut saved from a key is matched in the selection view by that key in either case |
| Forms.MatchingIndexes | slack-groups.user.js:454-458 | every returned index is in range with a shortcut equal to the key, and every such index is returned |
| Forms.MatchingIndexesAscending | slack-groups.user.js:454-458 | the matching indexes ascend strictly, so none repeats |
| Forms.SelectMatching | slack-groups.user.js:463-466 | the list after a shortcut key keeps one entry per group |
| Forms.SelectMatchingMeaning | slack-groups.user.js:463-466 | after a shortcut key a group is selected exactly when its shortcut is the key, and its other fields are kept |
| Forms.NewGroupDefaults | slack-groups.user.js:366-374 | a new group starts unnamed, coloured #77FF77, with no channels and no shortcut, and unselected |
| Forms.TickedChannels | slack-groups.user.js:378-393 | a channel is submitted exactly when the host lists it and its option is ticked |
| Forms.SubmittedGroup | slack-groups.user.js:390-397 | the submitted group holds the inputs' name, colour, channels and shortcut, and the selection flag of the group the form started from; a new group is unselected |
| Forms.UnchangedSubmitKeepsListedChannels | slack-groups.user.js:378-393 | saving a form unchanged keeps exactly the group's channels that the host still lists |
| Controller.IsShiftCode | slack-groups.user.js:787 | a code counts as shift exactly when its first five characters, or the whole code if shorter (as JavaScript's `substring` gives), are "Shift"; both shift keys count and Escape does not |
| Controller.KeyDownStep | slack-groups.user.js:785-798 | see the KeyDownStep entry below the table |
| Controller.ClosedRunCountsShifts | slack-groups.user.js:784-792 | while the modal stays closed, the count equals the number of trailing shift presses, at most two |
| Controller.OpensOnThirdShift | slack-groups.user.js:784-793 | after a run that kept the modal closed, the next key opens the selection view exactly when it is shift and so were the two keys before it |
| Controller.TripleShiftExample | slack-groups.user.js:784-793 | Shift, Shift, X, Shift, Shift keeps the modal closed, and one more Shift opens it |
| Controller.OpenLeavesNoCount | slack-groups.user.js:788-793 | the key that opens the selection view leaves the count at zero, so closing the view returns the handler to its start state |
| Controller.DismissThenShiftStaysClosed | slack-groups.user.js:788-796 | after Shift ×3 opens the view and a dismiss closes it, one more shift leaves the modal closed with the count at one |
| Controller.ClosedUpTo | slack-groups.user.js:785-793 | for each prefix of Shift, Shift, X, Shift, Shift the modal stays closed, and the count goes 1, 2, 0, 1, 2 |
| Controller.SelectingMatchesIsSelectMatching | slack-groups.user.js:463-466 | a list in which exactly the entries at the matching indexes are selected, all else unchanged, is `SelectMatching` of the old list |
| Controller.ShortcutExample | slack-groups.user.js:453-468 | with shortcuts a, a and b, pressing "A" selects the first two groups and deselects the third |
| Controller.ClearedSelectionHasNoRules | slack-groups.user.js:117-123 | once the selection is cleared there are no rules, whatever the mute flag |
| Controller.App.constructor | slack-groups.user.js:810-815 | see the App.constructor entry below the table |
| Controller.App.RefreshStyle | slack-groups.user.js:736-761 | the stylesheet becomes `Rules` of the current groups and mute flag |
| Controller.App.KeyDown | slack-groups.user.js:785-798 | the handler's count and stack change as `KeyDownStep` says; the invariant holds; the stylesheet is untouched |
| Controller.App.SelectionKeyPress | slack-groups.user.js:453-469 | see the App.SelectionKeyPress entry below the table |
| Controller.App.SelectMatchingAndClose | slack-groups.user.js:462-467 | clear, select each match, then pop: the list is `SelectMatching`, with one write and notification per group cleared and per match |
| Controller.App.SelectEach | slack-groups.user.js:464-466 | after toggling each matching index once, on a list with nothing selected, exactly the matching entries are selected |
| Controller.App.SelectionKeyDown | slack-groups.user.js:471-478 | see the App.SelectionKeyDown entry below the table |
| Controller.App.ClearAndClose | slack-groups.user.js:474-476 | the selection is cleared (storage written only if there were groups) and one level is closed |
| Controller.App.OpenConfigurationForm | slack-groups.user.js:366-374 | the form for a new group, or for entry `index` as it is now, is pushed and shown |
| Controller.App.SubmitConfiguration | slack-groups.user.js:390-401 | see the App.SubmitConfiguration entry below the table |
| Controller.App.ToggleGroup | slack-groups.user.js:498-502 | in range: the entry's selection flips, the new state is written with one selection notification, and the stylesheet follows; out of range: storage, log and stylesheet are unchanged |
| Controller.App.ToggleMute | slack-groups.user.js:432-436 | the mute flag flips, the new state is written to this workspace's slot with one notification, and the stylesheet follows |
| Controller.App.RemoveGroup | slack-groups.user.js:532-538 | in range: the entry is deleted, the new state is written, both listener classes are notified, and the stylesheet follows; out of range: groups, storage, log and stylesheet are unchanged |
| Controller.App.Dismiss | slack-groups.user.js:260-274 | the close button and a click outside the dialog each pop one level, and so does the form's cancel button at lines 355-359; the invariant holds |

States of the longer rows:

- **Controller.KeyDownStep**:
  - the count never exceeds two;
  - a shift with the modal closed raises the count by one, up to two; the
    third such shift sets it back to zero;
  - any non-shift key, or any key while the modal is open, resets the count;
  - Escape pops a level;
  - the stack grows exactly on a third shift with the modal closed, and then
    holds only the selection view;
  - otherwise the stack is unchanged.
- **Controller.App.constructor**:
  - the stored record for this workspace is loaded, or else the defaults are
    kept;
  - the stylesheet is computed once and the count is zero, so the invariant
    holds;
  - nothing is written.
- **Controller.App.SelectionKeyPress**: when some shortcut equals the
  lower-cased key:
  - the groups become `SelectMatching`: selected exactly when the shortcut
    matches;
  - one level closes;
  - there is one write and notification per group cleared and per match;
  - the stylesheet follows.

  Otherwise nothing changes.
- **Controller.App.SelectionKeyDown**: on Backspace or Delete:
  - all groups are deselected;
  - one level closes;
  - there is one write and notification per group;
  - the stylesheet is empty.

  Other keys change nothing.
- **Controller.App.SubmitConfiguration**:
  - a new group is appended, with a group-update notification only, and the
    stylesheet is unchanged;
  - an edit replaces the entry when it is in range and does nothing otherwise;
  - the form closes;
  - the invariant holds.

## Left out

- The DOM is not part of this model:
  - markup, icons and the CSS of the dialog;
  - the closed shadow root;
  - rendering the selection view (the group-update listener);
  - the display sort of the selection view by lower-cased name.

  The rows of that view are modelled by their list index, which is what
  their handlers pass to the store.
- The Slack adapter is not part of this model: polling until the sidebar
  exists, and reading the team id and channel list from the page. The team
  id and the host's channel ids are parameters.
- The team id is re-read from the page at each write. It is modelled as
  fixed for the life of the store.
- Storage holds `WorkspaceState` values directly, so JSON encoding and
  decoding are not modelled. Neither is a stored record that is malformed or
  lacks a field. The script itself always writes whole records.
- Listener registration and fan-out: the log records one entry per
  notification of a listener class, not one per registered listener.
- The selection-update listener runs inside each store call, once per
  notification. The model recomputes the stylesheet once after the store
  call returns. The value is the same, because each call's last
  notification follows its last change.
- `window.confirm` before a delete is the caller's decision:
  `App.RemoveGroup` is the confirmed path.
- The focus of the first input on render (`setTimeout`) and the console
  message at start-up are not modelled.
- `preventDefault`/`stopPropagation` are not modelled, so the order in which
  the view's handlers and the document handler see one event is left out.
  The document handler listens to `keydown`, the shortcut handler to the later
  `keypress`. So every shortcut key's `keydown` reaches the document handler
  first: it resets the count and leaves the stack alone. Only the view's
  Backspace/Delete `keydown` is stopped before the document handler sees it;
  had it not been, that handler would still only reset the count, because
  the modal is open.
- CSS selector strings and stylesheet text are not modelled. Rules are
  values, and `ShadeOf`/`ColorOf` give the cascade's outcome: all these
  rules are `!important`, with equal specificity, so the last one that
  applies wins.
- Highlight.ShadeMeaning: muting fades every channel label. In the script it
  fades only public and private channel items, so other sidebar items keep
  the host's opacity.
- Forms.Lower: only ASCII letters are lower-cased. JavaScript's
  `toLowerCase` also maps non-ASCII letters.
- Controller.App.SelectionKeyPress: the key is taken as given. An empty key
  name, which the browser never delivers, would match the groups that have
  no shortcut.
- Controller.App.OpenConfigurationForm: the model captures entry `index` as a
  value when the form opens. The script keeps a reference to the live group
  object and reads its selection flag at save time. Nothing can toggle that
  flag while the form is on top, so the outcome is the same. The method
  requires an index in range: edit buttons exist only for existing entries,
  and the script fails on any other index.
