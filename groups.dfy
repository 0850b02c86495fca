/**
 * The values the script keeps per workspace: channel groups and the
 * workspace state that is written to storage, with the value-level edits
 * the state store applies to the list of groups.
 */
module Groups {

  /** One user-defined group. `color` is the "#RRGGBB" text of a colour input;
      `shortcut` is "" or one key; `channels` are host item ids. */
  datatype Group = Group(
    name: string,
    color: string,
    channels: seq<string>,
    shortcut: string,
    isSelected: bool)

  /** The persisted record: the ordered groups and the mute flag. */
  datatype WorkspaceState = WorkspaceState(groups: seq<Group>, muteUnselectedChannels: bool)

  /** The state a workspace starts from when nothing is stored: no groups, muting on. */
  function DefaultState(): (d: WorkspaceState)
    ensures d.groups == [] && d.muteUnselectedChannels
  {
    WorkspaceState([], true)
  }

  /** The index guard shared by update, remove and toggle. */
  predicate InRange(gs: seq<Group>, index: int) {
    0 <= index < |gs|
  }

  /** `g` with its selection flag set to `b` and every other field kept. */
  function WithSelection(g: Group, b: bool): Group {
    g.(isSelected := b)
  }

  /** The list after replacing entry `index` by `g`; unchanged when the index is out of range. */
  function ReplaceAt(gs: seq<Group>, index: int, g: Group): (r: seq<Group>)
    ensures |r| == |gs|
    ensures InRange(gs, index) ==> r[index] == g
    ensures forall k :: 0 <= k < |gs| && k != index ==> r[k] == gs[k]
  {
    if InRange(gs, index) then gs[index := g] else gs
  }

  /** The list after deleting entry `index`; unchanged when the index is out of range. */
  function RemoveAt(gs: seq<Group>, index: int): (r: seq<Group>)
    ensures InRange(gs, index) ==> |r| == |gs| - 1
    ensures InRange(gs, index) ==> forall k :: 0 <= k < index ==> r[k] == gs[k]
    ensures InRange(gs, index) ==> forall k :: index <= k < |r| ==> r[k] == gs[k + 1]
    ensures !InRange(gs, index) ==> r == gs
  {
    if InRange(gs, index) then gs[..index] + gs[index + 1..] else gs
  }

  /** The list after flipping the selection of entry `index`; unchanged when out of range. */
  function ToggleAt(gs: seq<Group>, index: int): (r: seq<Group>)
    ensures |r| == |gs|
    ensures forall k :: 0 <= k < |gs| && k != index ==> r[k] == gs[k]
    ensures InRange(gs, index) ==>
      r[index].isSelected == !gs[index].isSelected && WithSelection(r[index], gs[index].isSelected) == gs[index]
    ensures !InRange(gs, index) ==> r == gs
  {
    if InRange(gs, index) then gs[index := WithSelection(gs[index], !gs[index].isSelected)] else gs
  }

  /** The list with every group deselected. */
  function ClearSelection(gs: seq<Group>): (r: seq<Group>)
    ensures |r| == |gs|
    ensures forall k :: 0 <= k < |gs| ==> !r[k].isSelected
    ensures forall k :: 0 <= k < |gs| ==> WithSelection(r[k], gs[k].isSelected) == gs[k]
  {
    seq(|gs|, k requires 0 <= k < |gs| => WithSelection(gs[k], false))
  }

  /** Removing a group takes exactly that one group out of the list. */
  lemma RemoveAtDropsOne(gs: seq<Group>, index: int)
    requires InRange(gs, index)
    ensures multiset(RemoveAt(gs, index)) + multiset{gs[index]} == multiset(gs)
  {
    assert gs == gs[..index] + [gs[index]] + gs[index + 1..];
  }

  /** Toggling entry `index` changes its selection flag and nothing else of it. */
  lemma ToggleAtFlipsOnlySelection(gs: seq<Group>, index: int)
    requires InRange(gs, index)
    ensures ToggleAt(gs, index)[index].isSelected == !gs[index].isSelected
    ensures WithSelection(ToggleAt(gs, index)[index], gs[index].isSelected) == gs[index]
  {
  }

  /** Toggling the same entry twice restores the list, in range or not. */
  lemma ToggleTwice(gs: seq<Group>, index: int)
    ensures ToggleAt(ToggleAt(gs, index), index) == gs
  {
    if InRange(gs, index) {
      assert ToggleAt(ToggleAt(gs, index), index)[index] == gs[index];
    }
  }

  /** Clearing the selection twice is the same as clearing it once. */
  lemma ClearSelectionIdempotent(gs: seq<Group>)
    ensures ClearSelection(ClearSelection(gs)) == ClearSelection(gs)
  {
  }
}
