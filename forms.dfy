/**
 * The pure parts of the two forms: the key filter of the shortcut input, the
 * matching of a pressed key against group shortcuts in the selection view, and
 * the defaults and submitted value of the group configuration form.
 */
module Forms {
  import opened Groups

  predicate IsAsciiLetterOrDigit(c: char) {
    'a' <= c <= 'z' || 'A' <= c <= 'Z' || '0' <= c <= '9'
  }

  function LowerChar(c: char): (d: char)
    ensures 'A' <= c <= 'Z' ==> 'a' <= d <= 'z' && d as int == c as int + 32
    ensures !('A' <= c <= 'Z') ==> d == c
  {
    if 'A' <= c <= 'Z' then (c as int + 32) as char else c
  }

  /** Lower-cases the ASCII letters of a key name; other characters are kept. */
  function Lower(s: string): (r: string)
    ensures |r| == |s|
    ensures forall i :: 0 <= i < |r| ==> !('A' <= r[i] <= 'Z')
    ensures forall i :: 0 <= i < |s| && 'A' <= s[i] <= 'Z' ==> r[i] as int == s[i] as int + 32
    ensures forall i :: 0 <= i < |s| && !('A' <= s[i] <= 'Z') ==> r[i] == s[i]
  {
    seq(|s|, i requires 0 <= i < |s| => LowerChar(s[i]))
  }

  lemma LowerIdempotent(s: string)
    ensures Lower(Lower(s)) == Lower(s)
  {
  }

  /** What the shortcut input can hold: nothing, or one lower-case letter or digit. */
  predicate IsShortcut(s: string) {
    s == "" || (|s| == 1 && ('a' <= s[0] <= 'z' || '0' <= s[0] <= '9'))
  }

  /** The keys the shortcut input accepts: a single letter or digit, either case. */
  predicate AcceptedShortcutKey(key: string) {
    |key| == 1 && IsAsciiLetterOrDigit(key[0])
  }

  /** The shortcut input's value after a key press: an accepted key replaces it,
      lower-cased; any other key is swallowed and leaves it as it was. */
  function ShortcutKeyPress(current: string, key: string): (r: string)
    ensures IsShortcut(current) ==> IsShortcut(r)
    ensures AcceptedShortcutKey(key) ==> IsShortcut(r) && r == Lower(key)
    ensures !AcceptedShortcutKey(key) ==> r == current
  {
    if AcceptedShortcutKey(key) then Lower(key) else current
  }

  /** A shortcut set with a key is matched again by that key in either case: the
      selection view lower-cases the pressed key before comparing. */
  lemma ShortcutMatchesItsKey(current: string, key: string, pressed: string)
    requires AcceptedShortcutKey(key)
    requires |pressed| == 1 && LowerChar(pressed[0]) == LowerChar(key[0])
    ensures Lower(pressed) == ShortcutKeyPress(current, key)
  {
  }

  /** The indexes of the groups whose shortcut equals `key`, ascending. */
  function MatchingIndexes(gs: seq<Group>, key: string): (r: seq<nat>)
    ensures forall j :: 0 <= j < |r| ==> r[j] < |gs| && gs[r[j]].shortcut == key
    ensures forall k :: 0 <= k < |gs| && gs[k].shortcut == key ==> k in r
  {
    if gs == [] then []
    else
      var n := |gs| - 1;
      MatchingIndexes(gs[..n], key) + (if gs[n].shortcut == key then [n] else [])
  }

  /** The matching indexes come in strictly ascending order, so none repeats. */
  lemma {:induction false} MatchingIndexesAscending(gs: seq<Group>, key: string)
    ensures forall i, j :: 0 <= i < j < |MatchingIndexes(gs, key)| ==>
              MatchingIndexes(gs, key)[i] < MatchingIndexes(gs, key)[j]
  {
    if gs != [] {
      var n := |gs| - 1;
      MatchingIndexesAscending(gs[..n], key);
      var init := MatchingIndexes(gs[..n], key);
      var r := MatchingIndexes(gs, key);
      forall i, j | 0 <= i < j < |r|
        ensures r[i] < r[j]
      {
        if j < |init| {
          assert r[i] == init[i] && r[j] == init[j] && init[i] < init[j];
        } else {
          assert r[i] == init[i] && init[i] < |gs[..n]| == n && r[j] == n;
        }
      }
    }
  }

  /** Each group selected exactly when its shortcut equals `key`. */
  function SelectMatching(gs: seq<Group>, key: string): (r: seq<Group>)
    ensures |r| == |gs|
  {
    seq(|gs|, k requires 0 <= k < |gs| => WithSelection(gs[k], gs[k].shortcut == key))
  }

  /** After a shortcut key, a group is selected exactly when its shortcut is the key,
      and nothing else about any group changes. */
  lemma SelectMatchingMeaning(gs: seq<Group>, key: string)
    ensures forall k :: 0 <= k < |gs| ==> (SelectMatching(gs, key)[k].isSelected <==> gs[k].shortcut == key)
    ensures forall k :: 0 <= k < |gs| ==> WithSelection(SelectMatching(gs, key)[k], gs[k].isSelected) == gs[k]
  {
  }

  /** The group a new configuration form starts from: unnamed, light green, with no
      channels and no shortcut, and not selected. */
  function NewGroupDefaults(): (g: Group)
    ensures g.name == "" && g.color == "#77FF77" && g.channels == []
    ensures IsShortcut(g.shortcut) && g.shortcut == "" && !g.isSelected
  {
    Group("", "#77FF77", [], "", false)
  }

  /** What a configuration form edits: a group still to be created, or entry `index`
      as it was when the form was opened. */
  datatype FormTarget = NewGroup | ExistingGroup(index: nat, original: Group)

  /** The group the form's inputs start from. */
  function FormInitial(target: FormTarget): Group {
    match target
    case NewGroup => NewGroupDefaults()
    case ExistingGroup(_, original) => original
  }

  /** The host's channel ids whose option is ticked: the channel list of a
      submitted form. */
  function TickedChannels(hostChannels: seq<string>, ticked: set<string>): (r: seq<string>)
    ensures forall c :: c in r <==> c in hostChannels && c in ticked
  {
    if hostChannels == [] then []
    else
      var n := |hostChannels| - 1;
      TickedChannels(hostChannels[..n], ticked) + (if hostChannels[n] in ticked then [hostChannels[n]] else [])
  }

  /** The options ticked when a form opens: those of the group's own channels. */
  function InitialTicks(g: Group): set<string> {
    set c | c in g.channels
  }

  /** The group a submitted form produces: the inputs' values and the selection
      flag of the group the form started from. */
  function SubmittedGroup(target: FormTarget, name: string, color: string, channels: seq<string>, shortcut: string): (g: Group)
    ensures g.name == name && g.color == color && g.channels == channels && g.shortcut == shortcut
    ensures g.isSelected == FormInitial(target).isSelected
    ensures target.NewGroup? ==> !g.isSelected
  {
    Group(name, color, channels, shortcut, FormInitial(target).isSelected)
  }

  /** Saving a form unchanged keeps a group's channels only as far as the host still
      lists them: a channel id the host no longer shows is dropped. */
  lemma UnchangedSubmitKeepsListedChannels(target: FormTarget, hostChannels: seq<string>)
    ensures var kept := TickedChannels(hostChannels, InitialTicks(FormInitial(target)));
            forall c :: c in kept <==> c in FormInitial(target).channels && c in hostChannels
  {
  }
}
