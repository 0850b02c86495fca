/**
 * The group state store: the current groups and mute flag of one workspace,
 * the storage slot they are written back to after each change, and the
 * notifications each change sends to the two listener classes.
 */
module GroupStore {
  import opened Groups

  /** What a store operation does besides changing the state, in order. */
  datatype Effect =
    | Persisted                 // the whole state was written to storage
    | GroupUpdateNotified       // the group-update listeners were called
    | SelectionUpdateNotified   // the selection-update listeners were called

  const StorageNamespace: string := "kburton/tampermonkey-scripts/slack-groups"

  /** The storage key of a workspace: the namespace, "::", then the team id. */
  function StorageKey(teamId: string): (key: string)
    ensures |key| == |StorageNamespace| + 2 + |teamId|
    ensures key[..|StorageNamespace|] == StorageNamespace
    ensures key[|StorageNamespace|..|StorageNamespace| + 2] == "::"
    ensures key[|StorageNamespace| + 2..] == teamId
  {
    StorageNamespace + "::" + teamId
  }

  /** Two workspaces share a storage slot only if they are the same workspace. */
  lemma StorageKeyInjective(a: string, b: string)
    ensures StorageKey(a) == StorageKey(b) <==> a == b
  {
    if StorageKey(a) == StorageKey(b) {
      calc {
        a;
        StorageKey(a)[|StorageNamespace| + 2..];
        StorageKey(b)[|StorageNamespace| + 2..];
        b;
      }
    }
  }

  /** The effects of `n` selection changes that each write and notify once. */
  function SelectionWrites(n: nat): (log: seq<Effect>)
    ensures |log| == 2 * n
  {
    if n == 0 then [] else SelectionWrites(n - 1) + [Persisted, SelectionUpdateNotified]
  }

  /** Selection changes made one after another log like one run of them. */
  lemma {:induction false} SelectionWritesAdd(n: nat, m: nat)
    ensures SelectionWrites(n) + SelectionWrites(m) == SelectionWrites(n + m)
  {
    if m == 0 {
      assert SelectionWrites(n) + [] == SelectionWrites(n);
    } else {
      SelectionWritesAdd(n, m - 1);
      assert SelectionWrites(n) + (SelectionWrites(m - 1) + [Persisted, SelectionUpdateNotified])
          == (SelectionWrites(n) + SelectionWrites(m - 1)) + [Persisted, SelectionUpdateNotified];
    }
  }

  class Store {
    /** The workspace whose state this is. */
    const teamId: string
    var groups: seq<Group>
    var muteUnselectedChannels: bool
    /** The persisted key-value storage, shared by all workspaces. */
    var storage: map<string, WorkspaceState>
    /** Every write and notification so far, oldest first. */
    var log: seq<Effect>

    function Snapshot(): WorkspaceState
      reads this
    {
      WorkspaceState(groups, muteUnselectedChannels)
    }

    /** The stored value for this workspace is the current state. */
    predicate Synced()
      reads this
    {
      StorageKey(teamId) in storage && storage[StorageKey(teamId)] == Snapshot()
    }

    /** The store before `Init`: the built-in defaults, with the given storage. */
    constructor (teamId: string, storage: map<string, WorkspaceState>)
      ensures this.teamId == teamId && this.storage == storage
      ensures Snapshot() == DefaultState() && log == []
    {
      this.teamId := teamId;
      this.storage := storage;
      groups := [];
      muteUnselectedChannels := true;
      log := [];
    }

    /** Loads the stored state of this workspace if there is one; otherwise the current state stays. */
    method Init()
      modifies this
      ensures StorageKey(teamId) in storage ==> Snapshot() == storage[StorageKey(teamId)] && Synced()
      ensures StorageKey(teamId) !in storage ==> Snapshot() == old(Snapshot())
      ensures storage == old(storage) && log == old(log)
    {
      var key := StorageKey(teamId);
      if key in storage {
        var stored := storage[key];
        groups := stored.groups;
        muteUnselectedChannels := stored.muteUnselectedChannels;
      }
    }

    /** Writes the whole current state over this workspace's stored value. */
    method Persist()
      modifies this`storage, this`log
      ensures storage == old(storage)[StorageKey(teamId) := Snapshot()] && Synced()
      ensures log == old(log) + [Persisted]
    {
      storage := storage[StorageKey(teamId) := Snapshot()];
      log := log + [Persisted];
    }

    /** Appends a group; notifies group-update listeners only. */
    method AddGroup(group: Group)
      modifies this
      ensures groups == old(groups) + [group]
      ensures muteUnselectedChannels == old(muteUnselectedChannels)
      ensures storage == old(storage)[StorageKey(teamId) := Snapshot()] && Synced()
      ensures log == old(log) + [Persisted, GroupUpdateNotified]
    {
      groups := groups + [group];
      Persist();
      log := log + [GroupUpdateNotified];
    }

    /** Replaces entry `index`; notifies group-update then selection-update listeners.
        Out of range: nothing changes, nothing is written, nobody is notified. */
    method UpdateGroup(index: int, group: Group)
      modifies this
      ensures groups == ReplaceAt(old(groups), index, group)
      ensures muteUnselectedChannels == old(muteUnselectedChannels)
      ensures InRange(old(groups), index) ==>
        storage == old(storage)[StorageKey(teamId) := Snapshot()] && Synced() &&
        log == old(log) + [Persisted, GroupUpdateNotified, SelectionUpdateNotified]
      ensures !InRange(old(groups), index) ==> storage == old(storage) && log == old(log)
    {
      if 0 <= index < |groups| {
        groups := groups[index := group];
        Persist();
        log := log + [GroupUpdateNotified, SelectionUpdateNotified];
      }
    }

    /** Deletes entry `index`, shifting later entries down; notifies both listener classes.
        Out of range: nothing changes, nothing is written, nobody is notified. */
    method RemoveGroup(index: int)
      modifies this
      ensures groups == RemoveAt(old(groups), index)
      ensures muteUnselectedChannels == old(muteUnselectedChannels)
      ensures InRange(old(groups), index) ==>
        storage == old(storage)[StorageKey(teamId) := Snapshot()] && Synced() &&
        log == old(log) + [Persisted, GroupUpdateNotified, SelectionUpdateNotified]
      ensures !InRange(old(groups), index) ==> storage == old(storage) && log == old(log)
    {
      if 0 <= index < |groups| {
        groups := groups[..index] + groups[index + 1..];
        Persist();
        log := log + [GroupUpdateNotified, SelectionUpdateNotified];
      }
    }

    /** Flips the selection of entry `index`; notifies selection-update listeners only.
        Out of range: nothing changes, nothing is written, nobody is notified. */
    method ToggleGroupSelection(index: int)
      modifies this
      ensures groups == ToggleAt(old(groups), index)
      ensures muteUnselectedChannels == old(muteUnselectedChannels)
      ensures InRange(old(groups), index) ==>
        storage == old(storage)[StorageKey(teamId) := Snapshot()] && Synced() &&
        log == old(log) + SelectionWrites(1)
      ensures !InRange(old(groups), index) ==> storage == old(storage) && log == old(log)
    {
      if 0 <= index < |groups| {
        groups := groups[index := WithSelection(groups[index], !groups[index].isSelected)];
        Persist();
        log := log + [SelectionUpdateNotified];
      }
    }

    /** Deselects every group, one at a time, writing and notifying selection-update
        listeners after each one; so an empty list writes nothing and notifies nobody. */
    method ClearGroupSelection()
      modifies this
      ensures groups == ClearSelection(old(groups))
      ensures muteUnselectedChannels == old(muteUnselectedChannels)
      ensures log == old(log) + SelectionWrites(|old(groups)|)
      ensures |old(groups)| > 0 ==> storage == old(storage)[StorageKey(teamId) := Snapshot()] && Synced()
      ensures |old(groups)| == 0 ==> storage == old(storage)
    {
      var i := 0;
      while i < |groups|
        invariant 0 <= i <= |groups| == |old(groups)|
        invariant forall k :: 0 <= k < i ==> groups[k] == WithSelection(old(groups)[k], false)
        invariant forall k :: i <= k < |groups| ==> groups[k] == old(groups)[k]
        invariant muteUnselectedChannels == old(muteUnselectedChannels)
        invariant log == old(log) + SelectionWrites(i)
        invariant i > 0 ==> storage == old(storage)[StorageKey(teamId) := Snapshot()]
        invariant i == 0 ==> storage == old(storage)
      {
        groups := groups[i := WithSelection(groups[i], false)];
        Persist();
        log := log + [SelectionUpdateNotified];
        assert SelectionWrites(i + 1) == SelectionWrites(i) + [Persisted, SelectionUpdateNotified];
        i := i + 1;
      }
    }

    /** Flips the mute flag; notifies selection-update listeners only. */
    method ToggleMuteUnselectedChannels()
      modifies this
      ensures groups == old(groups)
      ensures muteUnselectedChannels == !old(muteUnselectedChannels)
      ensures storage == old(storage)[StorageKey(teamId) := Snapshot()] && Synced()
      ensures log == old(log) + SelectionWrites(1)
    {
      muteUnselectedChannels := !muteUnselectedChannels;
      Persist();
      log := log + [SelectionUpdateNotified];
    }
  }
}
