/**
 * The highlight rule generator: from the groups and the mute flag to the
 * ordered style-override rules applied to the host's channel list, and what
 * those rules mean for one channel once the stylesheet cascade has run.
 */
module Highlight {
  import opened Wrappers
  import opened Groups

  /** One override rule, in stylesheet order. */
  datatype Rule =
    | DimAll                                      // fade every channel label
    | RestoreActive                               // full opacity for the host's active item
    | Opacity(channels: seq<string>)              // full opacity for these items
    | Color(channels: seq<string>, color: string) // recolour these items' names

  /** The selected groups, in list order. */
  function SelectedGroups(gs: seq<Group>): (sel: seq<Group>)
    ensures |sel| <= |gs|
  {
    if gs == [] then []
    else SelectedGroups(gs[..|gs| - 1]) + (if gs[|gs| - 1].isSelected then [gs[|gs| - 1]] else [])
  }

  /** The selected groups are exactly the list's entries whose flag is set. */
  lemma {:induction false} SelectedGroupsMembers(gs: seq<Group>)
    ensures forall g :: g in SelectedGroups(gs) ==> g in gs && g.isSelected
    ensures forall i :: 0 <= i < |gs| && gs[i].isSelected ==> gs[i] in SelectedGroups(gs)
  {
    if gs != [] {
      var init := gs[..|gs| - 1];
      SelectedGroupsMembers(init);
      forall i | 0 <= i < |gs| && gs[i].isSelected
        ensures gs[i] in SelectedGroups(gs)
      {
        if i < |init| {
          assert gs[i] == init[i];
        }
      }
    }
  }

  /** The two muting rules, present only when muting is on and some group is selected. */
  function MuteRules(sel: seq<Group>, mute: bool): (r: seq<Rule>)
    ensures |r| == (if |sel| > 0 && mute then 2 else 0)
  {
    if |sel| > 0 && mute then [DimAll, RestoreActive] else []
  }

  /** An opacity rule, then a colour rule, for each group in turn. */
  function GroupRules(sel: seq<Group>): (r: seq<Rule>)
    ensures |r| == 2 * |sel|
  {
    if sel == [] then []
    else
      var last := sel[|sel| - 1];
      GroupRules(sel[..|sel| - 1]) + [Opacity(last.channels), Color(last.channels, last.color)]
  }

  /** Group `j` contributes the rules at positions `2j` and `2j + 1`. */
  lemma {:induction false} GroupRulesAt(sel: seq<Group>, j: nat)
    requires j < |sel|
    ensures GroupRules(sel)[2 * j] == Opacity(sel[j].channels)
    ensures GroupRules(sel)[2 * j + 1] == Color(sel[j].channels, sel[j].color)
  {
    var init := sel[..|sel| - 1];
    if j < |init| {
      GroupRulesAt(init, j);
      assert init[j] == sel[j];
    }
  }

  /** The rules the stylesheet holds for these groups and this mute flag. */
  function Rules(gs: seq<Group>, mute: bool): (r: seq<Rule>)
    ensures !mute ==> |r| == 2 * |SelectedGroups(gs)|
    ensures mute && |SelectedGroups(gs)| > 0 ==>
      |r| == 2 * |SelectedGroups(gs)| + 2 && r[0] == DimAll && r[1] == RestoreActive
  {
    var sel := SelectedGroups(gs);
    MuteRules(sel, mute) + GroupRules(sel)
  }

  /** Builds the rules the way the style updater does, one selected group at a time. */
  method ComputeRules(groups: seq<Group>, mute: bool) returns (rules: seq<Rule>)
    ensures rules == Rules(groups, mute)
  {
    var selected := SelectedGroups(groups);
    rules := [];
    if |selected| > 0 && mute {
      rules := rules + [DimAll];
      rules := rules + [RestoreActive];
    }
    var i := 0;
    while i < |selected|
      invariant 0 <= i <= |selected|
      invariant rules == MuteRules(selected, mute) + GroupRules(selected[..i])
    {
      var g := selected[i];
      rules := rules + [Opacity(g.channels)];
      rules := rules + [Color(g.channels, g.color)];
      assert selected[..i + 1][..i] == selected[..i];
      i := i + 1;
    }
    assert selected[..|selected|] == selected;
  }

  /** Filtering preserves list order: the selection of a concatenation is the
      concatenation of the selections. */
  lemma {:induction false} SelectedGroupsAppend(a: seq<Group>, b: seq<Group>)
    ensures SelectedGroups(a + b) == SelectedGroups(a) + SelectedGroups(b)
  {
    if b == [] {
      assert a + b == a;
    } else {
      var n := |b|;
      assert (a + b)[..|a + b| - 1] == a + b[..n - 1];
      assert (a + b)[|a + b| - 1] == b[n - 1];
      SelectedGroupsAppend(a, b[..n - 1]);
    }
  }

  /** Some group of the list is selected. */
  predicate AnySelected(gs: seq<Group>) {
    exists i :: 0 <= i < |gs| && gs[i].isSelected
  }

  /** No rules at all exactly when nothing is selected, whatever the mute flag. */
  lemma RulesEmptyIff(gs: seq<Group>, mute: bool)
    ensures Rules(gs, mute) == [] <==> !AnySelected(gs)
  {
    var sel := SelectedGroups(gs);
    SelectedGroupsMembers(gs);
    if sel != [] {
      assert sel[0] in gs;
      var i :| 0 <= i < |gs| && gs[i] == sel[0];
      assert gs[i].isSelected;
    }
  }

  /** The rules a group contributes sit at the same place after any prefix. */
  lemma GroupRulesAfter(pre: seq<Rule>, sel: seq<Group>, j: nat)
    requires j < |sel|
    ensures (pre + GroupRules(sel))[|pre| + 2 * j] == Opacity(sel[j].channels)
    ensures (pre + GroupRules(sel))[|pre| + 2 * j + 1] == Color(sel[j].channels, sel[j].color)
  {
    GroupRulesAt(sel, j);
  }

  /** The layout of the output: the muting pair first when muting applies, then an
      opacity and a colour rule per selected group, in list order. */
  lemma RulesLayout(gs: seq<Group>, mute: bool)
    ensures var sel := SelectedGroups(gs);
            var off := if mute && |sel| > 0 then 2 else 0;
            var r := Rules(gs, mute);
            && |r| == off + 2 * |sel|
            && (off == 2 ==> r[0] == DimAll && r[1] == RestoreActive)
            && (forall j :: 0 <= j < |sel| ==>
                  r[off + 2 * j] == Opacity(sel[j].channels) &&
                  r[off + 2 * j + 1] == Color(sel[j].channels, sel[j].color))
  {
    var sel := SelectedGroups(gs);
    var pre := MuteRules(sel, mute);
    forall j | 0 <= j < |sel|
      ensures (pre + GroupRules(sel))[|pre| + 2 * j] == Opacity(sel[j].channels)
      ensures (pre + GroupRules(sel))[|pre| + 2 * j + 1] == Color(sel[j].channels, sel[j].color)
    {
      GroupRulesAfter(pre, sel, j);
    }
  }

  /** Some selected group lists the channel. */
  predicate Highlighted(gs: seq<Group>, channel: string) {
    exists i :: 0 <= i < |gs| && gs[i].isSelected && channel in gs[i].channels
  }

  /** The rule names the channel among the items it targets. */
  predicate Mentions(r: Rule, channel: string) {
    match r
    case Opacity(cs) => channel in cs
    case Color(cs, _) => channel in cs
    case _ => false
  }

  /** Some group of the sequence lists the channel (no selection test). */
  predicate ListedIn(sel: seq<Group>, channel: string) {
    exists j :: 0 <= j < |sel| && channel in sel[j].channels
  }

  lemma SelectedListedIff(gs: seq<Group>, channel: string)
    ensures ListedIn(SelectedGroups(gs), channel) <==> Highlighted(gs, channel)
  {
    var sel := SelectedGroups(gs);
    SelectedGroupsMembers(gs);
    if ListedIn(sel, channel) {
      var j :| 0 <= j < |sel| && channel in sel[j].channels;
      assert sel[j] in gs;
      var i :| 0 <= i < |gs| && gs[i] == sel[j];
      assert gs[i].isSelected && channel in gs[i].channels;
    }
    if Highlighted(gs, channel) {
      var i :| 0 <= i < |gs| && gs[i].isSelected && channel in gs[i].channels;
      assert gs[i] in sel;
      var j :| 0 <= j < |sel| && sel[j] == gs[i];
      assert channel in sel[j].channels;
    }
  }

  /** Some rule of the sequence names the channel. */
  predicate MentionedIn(rules: seq<Rule>, channel: string) {
    exists j :: 0 <= j < |rules| && Mentions(rules[j], channel)
  }

  lemma MentionedInAppend(a: seq<Rule>, b: seq<Rule>, channel: string)
    ensures MentionedIn(a + b, channel) <==> MentionedIn(a, channel) || MentionedIn(b, channel)
  {
    if MentionedIn(a + b, channel) {
      var j :| 0 <= j < |a + b| && Mentions((a + b)[j], channel);
      if j >= |a| { assert (a + b)[j] == b[j - |a|]; }
    }
    if MentionedIn(b, channel) {
      var j :| 0 <= j < |b| && Mentions(b[j], channel);
      assert (a + b)[|a| + j] == b[j];
    }
    if MentionedIn(a, channel) {
      var j :| 0 <= j < |a| && Mentions(a[j], channel);
      assert (a + b)[j] == a[j];
    }
  }

  /** A sequence lists the channel when its last group does or the rest does. */
  lemma ListedInSnoc(sel: seq<Group>, channel: string)
    requires sel != []
    ensures ListedIn(sel, channel)
            == (channel in sel[|sel| - 1].channels || ListedIn(sel[..|sel| - 1], channel))
  {
    var init := sel[..|sel| - 1];
    if ListedIn(sel, channel) && channel !in sel[|sel| - 1].channels {
      var j :| 0 <= j < |sel| && channel in sel[j].channels;
      assert init[j] == sel[j];
    }
    if ListedIn(init, channel) {
      var j :| 0 <= j < |init| && channel in init[j].channels;
      assert sel[j] == init[j];
    }
  }

  lemma {:induction false} MentionedInGroupRules(sel: seq<Group>, channel: string)
    ensures MentionedIn(GroupRules(sel), channel) <==> ListedIn(sel, channel)
  {
    if sel == [] {
    } else {
      var init, last := sel[..|sel| - 1], sel[|sel| - 1];
      var tail := [Opacity(last.channels), Color(last.channels, last.color)];
      MentionedInGroupRules(init, channel);
      MentionedInAppend(GroupRules(init), tail, channel);
      assert MentionedIn(tail, channel) <==> channel in last.channels by {
        if channel in last.channels { assert Mentions(tail[0], channel); }
      }
      ListedInSnoc(sel, channel);
    }
  }

  /** A channel appears in the rules exactly when a selected group lists it: in
      particular an unselected group's channels appear only if a selected group
      shares them. */
  lemma RulesMentionOnlyHighlighted(gs: seq<Group>, mute: bool, channel: string)
    ensures MentionedIn(Rules(gs, mute), channel) <==> Highlighted(gs, channel)
  {
    var sel := SelectedGroups(gs);
    var pre := MuteRules(sel, mute);
    MentionedInAppend(pre, GroupRules(sel), channel);
    assert !MentionedIn(pre, channel);
    MentionedInGroupRules(sel, channel);
    SelectedListedIff(gs, channel);
  }

  // ---- What the rules do once the cascade has run ----

  /** The opacity a channel label ends up with. */
  datatype Shade = HostShade | Faded | Opaque

  /** All opacity rules have the same specificity and are `!important`, so the
      last one that applies to the label wins; no applicable rule leaves the host's
      own opacity. */
  function ShadeOf(rules: seq<Rule>, channel: string, isActive: bool): Shade {
    if rules == [] then HostShade
    else
      var earlier := rules[..|rules| - 1];
      match rules[|rules| - 1]
      case DimAll => Faded
      case RestoreActive => if isActive then Opaque else ShadeOf(earlier, channel, isActive)
      case Opacity(cs) => if channel in cs then Opaque else ShadeOf(earlier, channel, isActive)
      case Color(_, _) => ShadeOf(earlier, channel, isActive)
  }

  /** Likewise the last colour rule that applies to the name wins. */
  function ColorOf(rules: seq<Rule>, channel: string): Option<string> {
    if rules == [] then None
    else
      var earlier := rules[..|rules| - 1];
      match rules[|rules| - 1]
      case Color(cs, color) => if channel in cs then Some(color) else ColorOf(earlier, channel)
      case _ => ColorOf(earlier, channel)
  }

  /** The colour of the last group of the sequence that lists the channel. */
  function LastColorIn(sel: seq<Group>, channel: string): Option<string> {
    if sel == [] then None
    else if channel in sel[|sel| - 1].channels then Some(sel[|sel| - 1].color)
    else LastColorIn(sel[..|sel| - 1], channel)
  }

  /** The colour of the last selected group that lists the channel. */
  function LastSelectedColor(gs: seq<Group>, channel: string): Option<string> {
    if gs == [] then None
    else if gs[|gs| - 1].isSelected && channel in gs[|gs| - 1].channels then Some(gs[|gs| - 1].color)
    else LastSelectedColor(gs[..|gs| - 1], channel)
  }

  /** A group's two rules append as one step of the concatenation. */
  lemma GroupRulesSnoc(pre: seq<Rule>, sel: seq<Group>)
    requires sel != []
    ensures var last := sel[|sel| - 1];
            pre + GroupRules(sel)
            == (pre + GroupRules(sel[..|sel| - 1])) + [Opacity(last.channels), Color(last.channels, last.color)]
  {
    var last := sel[|sel| - 1];
    var tail := [Opacity(last.channels), Color(last.channels, last.color)];
    assert GroupRules(sel) == GroupRules(sel[..|sel| - 1]) + tail;
    assert pre + (GroupRules(sel[..|sel| - 1]) + tail) == (pre + GroupRules(sel[..|sel| - 1])) + tail;
  }

  /** The opacity rule of a pair decides the shade when it applies; the colour rule never does. */
  lemma ShadeOfPair(body: seq<Rule>, cs: seq<string>, color: string, channel: string, isActive: bool)
    ensures ShadeOf(body + [Opacity(cs), Color(cs, color)], channel, isActive)
            == if channel in cs then Opaque else ShadeOf(body, channel, isActive)
  {
    var all := body + [Opacity(cs), Color(cs, color)];
    assert all[..|all| - 1] == body + [Opacity(cs)];
    assert (body + [Opacity(cs)])[..|body|] == body;
  }

  /** The colour rule of a pair decides the colour when it applies. */
  lemma ColorOfPair(body: seq<Rule>, cs: seq<string>, color: string, channel: string)
    ensures ColorOf(body + [Opacity(cs), Color(cs, color)], channel)
            == if channel in cs then Some(color) else ColorOf(body, channel)
  {
    var all := body + [Opacity(cs), Color(cs, color)];
    assert all[..|all| - 1] == body + [Opacity(cs)];
    assert (body + [Opacity(cs)])[..|body|] == body;
  }

  lemma {:induction false} ShadeOfGroupRules(pre: seq<Rule>, sel: seq<Group>, channel: string, isActive: bool)
    ensures ShadeOf(pre + GroupRules(sel), channel, isActive)
            == if ListedIn(sel, channel) then Opaque else ShadeOf(pre, channel, isActive)
  {
    if sel == [] {
      assert pre + GroupRules(sel) == pre;
    } else {
      var init, last := sel[..|sel| - 1], sel[|sel| - 1];
      GroupRulesSnoc(pre, sel);
      ShadeOfPair(pre + GroupRules(init), last.channels, last.color, channel, isActive);
      ShadeOfGroupRules(pre, init, channel, isActive);
      ListedInSnoc(sel, channel);
    }
  }

  lemma {:induction false} ColorOfGroupRules(pre: seq<Rule>, sel: seq<Group>, channel: string)
    ensures ColorOf(pre + GroupRules(sel), channel)
            == if LastColorIn(sel, channel).Some? then LastColorIn(sel, channel) else ColorOf(pre, channel)
  {
    if sel == [] {
      assert pre + GroupRules(sel) == pre;
    } else {
      var init, last := sel[..|sel| - 1], sel[|sel| - 1];
      GroupRulesSnoc(pre, sel);
      ColorOfPair(pre + GroupRules(init), last.channels, last.color, channel);
      ColorOfGroupRules(pre, init, channel);
    }
  }

  lemma {:induction false} LastColorOfSelected(gs: seq<Group>, channel: string)
    ensures LastColorIn(SelectedGroups(gs), channel) == LastSelectedColor(gs, channel)
  {
    if gs != [] {
      var init, last := gs[..|gs| - 1], gs[|gs| - 1];
      LastColorOfSelected(init, channel);
      var sel := SelectedGroups(gs);
      if last.isSelected {
        assert sel == SelectedGroups(init) + [last];
        assert sel[..|sel| - 1] == SelectedGroups(init);
      } else {
        assert sel == SelectedGroups(init) + [];
        assert sel == SelectedGroups(init);
      }
    }
  }

  /** A channel's label is at full opacity when a selected group lists it; otherwise,
      when muting applies, it is faded unless it is the host's active item; otherwise
      the host's own opacity is left alone. */
  lemma ShadeMeaning(gs: seq<Group>, mute: bool, channel: string, isActive: bool)
    ensures ShadeOf(Rules(gs, mute), channel, isActive) ==
      if Highlighted(gs, channel) then Opaque
      else if mute && AnySelected(gs) then (if isActive then Opaque else Faded)
      else HostShade
  {
    var sel := SelectedGroups(gs);
    RulesEmptyIff(gs, mute);
    assert sel == [] <==> !AnySelected(gs);
    ShadeOfGroupRules(MuteRules(sel, mute), sel, channel, isActive);
    SelectedListedIff(gs, channel);
    if |sel| > 0 && mute {
      var m := [DimAll, RestoreActive];
      assert m[..1] == [DimAll];
      assert ShadeOf([DimAll], channel, isActive) == Faded;
      assert ShadeOf(m, channel, isActive) == if isActive then Opaque else Faded;
    } else {
      assert MuteRules(sel, mute) == [];
    }
  }

  /** A channel's name takes the colour of the last selected group that lists it, in
      list order; the mute flag plays no part. */
  lemma ColorMeaning(gs: seq<Group>, mute: bool, channel: string)
    ensures ColorOf(Rules(gs, mute), channel) == LastSelectedColor(gs, channel)
  {
    var sel := SelectedGroups(gs);
    ColorOfGroupRules(MuteRules(sel, mute), sel, channel);
    LastColorOfSelected(gs, channel);
    if |sel| > 0 && mute {
      var m := [DimAll, RestoreActive];
      assert m[..1] == [DimAll];
      assert [DimAll][..0] == [];
      assert ColorOf([DimAll], channel) == None;
      assert ColorOf(m, channel) == None;
    } else {
      assert MuteRules(sel, mute) == [];
    }
  }

  /** Adding an unselected group leaves the rules as they were, so the stylesheet
      stays current although adding a group notifies only the group-update listeners. */
  lemma AddUnselectedKeepsRules(gs: seq<Group>, g: Group, mute: bool)
    requires !g.isSelected
    ensures Rules(gs + [g], mute) == Rules(gs, mute)
  {
    var all := gs + [g];
    assert all[..|all| - 1] == gs;
    assert all[|all| - 1] == g;
    assert SelectedGroups(all) == SelectedGroups(gs) + [];
    assert SelectedGroups(all) == SelectedGroups(gs);
  }

  /** The worked example: group A selected with channels 1 and 2 and colour #112233,
      group B unselected with channel 3, muting on. */
  lemma ExampleRules()
    ensures var a := Group("A", "#112233", ["1", "2"], "", true);
            var b := Group("B", "#445566", ["3"], "", false);
            Rules([a, b], true) == [DimAll, RestoreActive, Opacity(["1", "2"]), Color(["1", "2"], "#112233")]
  {
    var a := Group("A", "#112233", ["1", "2"], "", true);
    var b := Group("B", "#445566", ["3"], "", false);
    assert [a, b][..1] == [a];
    assert [a][..0] == [];
    assert SelectedGroups([a, b]) == [a];
  }
}
