/**
  The party overview panel (class `PartyOverviewApp` of module/logic.js): the UI
  state it keeps between refreshes, the two button handlers that change it, and
  `update()`, which recomputes the state object the template renders.

  The host is a parameter: the actor directory with each actor's active tokens,
  the stored tab-visibility setting and whether the viewer is a gamemaster. So
  is the ruleset adapter, whose functions are arbitrary and whose output is only
  passed through.
 */
module PartyOverview {

  import opened Wrappers
  import opened DisplayMode
  import opened Roster
  import opened Projection
  import opened Tabs
  import opened HiddenActors

  /** A property value of the panel state object. */
  datatype StateValue =
    | Field(value: FieldValue)
    | ActorList(records: seq<Record>)
    | TabMap(tabs: map<string, TabEntry>)

  /** The state object handed to the template, keyed by property name. */
  type ViewState = map<string, StateValue>

  const ActiveTabKey: string := "activeTab"
  const ModeKey: string := "mode"
  const ActorsKey: string := "actors"
  const TabsKey: string := "tabs"

  /** The ruleset adapter: per-actor details (`None` when the call throws), the
      whole-list transformer returning the new records and extra state properties,
      and the tabs the ruleset declares. */
  datatype SystemProvider = SystemProvider(
    getActorDetails: Actor -> Option<Record>,
    getUpdate: seq<Record> -> (seq<Record>, ViewState),
    tabs: map<string, TabDef>)

  /** What `update()` reads from the host: the actor directory, the stored tab
      visibility setting and whether the user is a gamemaster. */
  datatype Host = Host(actors: seq<HostActor>, tabVisibility: map<string, TabEntry>, isGM: bool)

  /** `{activeTab, mode, actors, ...updates, tabs}`: later properties win, so the
      adapter's extra properties may replace the first three but never `tabs`. */
  function Assemble(activeTab: string, mode: int, actors: seq<Record>, updates: ViewState,
                    tabs: map<string, TabEntry>): (r: ViewState)
    ensures r.Keys == {ActiveTabKey, ModeKey, ActorsKey, TabsKey} + updates.Keys
    ensures r[TabsKey] == TabMap(tabs)
    ensures ModeKey !in updates ==> r[ModeKey] == Field(Num(mode))
    ensures ActiveTabKey !in updates ==> r[ActiveTabKey] == Field(Text(activeTab))
    ensures ActorsKey !in updates ==> r[ActorsKey] == ActorList(actors)
    ensures forall k | k in updates && k != TabsKey :: r[k] == updates[k]
  {
    map[ActiveTabKey := Field(Text(activeTab)), ModeKey := Field(Num(mode)), ActorsKey := ActorList(actors)]
      + updates + map[TabsKey := TabMap(tabs)]
  }

  /** The records handed to the adapter's `getUpdate`. */
  function PanelRecords(host: Host, mode: int, hidden: seq<string>, provider: SystemProvider): (r: seq<Record>)
    ensures |r| == |ShownActors(host.actors, mode, hidden)|
  {
    Project(ShownActors(host.actors, mode, hidden), hidden, provider.getActorDetails)
  }

  /** The state `update()` produces, or `None` when it returns early because the
      source list is empty and empty lists are not being ignored. */
  function UpdatedState(mode: int, hidden: seq<string>, activeTab: string, ignoreNoActors: bool,
                        host: Host, provider: SystemProvider): (r: Option<ViewState>)
    ensures r.None? <==> |SourceActors(host.actors, mode)| == 0 && !ignoreNoActors
    ensures r.Some? ==> TabsKey in r.value && r.value[TabsKey] == TabMap(Reconciled(host.tabVisibility, provider.tabs, host.isGM))
  {
    if |SourceActors(host.actors, mode)| == 0 && !ignoreNoActors then None
    else
      var result := provider.getUpdate(PanelRecords(host, mode, hidden, provider));
      Some(Assemble(activeTab, mode, result.0, result.1,
                    Reconciled(host.tabVisibility, provider.tabs, host.isGM)))
  }

  /** The early exit happens exactly when the source list is empty and empty lists
      are not ignored; otherwise the new state carries the current mode and tab
      (unless the adapter overrides them) and always the reconciled tabs. */
  lemma UpdatedStateShape(mode: int, hidden: seq<string>, activeTab: string, ignoreNoActors: bool,
                          host: Host, provider: SystemProvider)
    ensures var r := UpdatedState(mode, hidden, activeTab, ignoreNoActors, host, provider);
      && (r.None? <==> |SourceActors(host.actors, mode)| == 0 && !ignoreNoActors)
      && (r.Some? ==>
            var updates := provider.getUpdate(PanelRecords(host, mode, hidden, provider)).1;
            && TabsKey in r.value && ModeKey in r.value && ActiveTabKey in r.value
            && r.value[TabsKey] == TabMap(Reconciled(host.tabVisibility, provider.tabs, host.isGM))
            && (ModeKey !in updates ==> r.value[ModeKey] == Field(Num(mode)))
            && (ActiveTabKey !in updates ==> r.value[ActiveTabKey] == Field(Text(activeTab))))
  {
  }

  /** One record per shown actor, whatever the adapter does for each: its
      `isHidden` is its hidden-list membership, and an actor whose details call
      failed gets only the two computed properties. */
  lemma PanelRecordsProperties(host: Host, mode: int, hidden: seq<string>, provider: SystemProvider)
    ensures var shown := ShownActors(host.actors, mode, hidden);
      var records := PanelRecords(host, mode, hidden, provider);
      && |records| == |shown|
      && DistinctIds(shown)
      && forall i | 0 <= i < |shown| ::
           && IsHiddenKey in records[i] && ShortestNameKey in records[i]
           && records[i][IsHiddenKey] == Flag(shown[i].id in hidden)
           && (provider.getActorDetails(shown[i]).None? ==>
                 records[i].Keys == {ShortestNameKey, IsHiddenKey})
  {
    ShownActorsProperties(host.actors, mode, hidden);
  }

  /** With an empty source list and empty lists ignored, `getUpdate` receives no
      records, and the state's actor list is whatever the adapter makes of none. */
  lemma IgnoredEmptySourceGivesNoRecords(mode: int, hidden: seq<string>, activeTab: string,
                                         host: Host, provider: SystemProvider)
    requires |SourceActors(host.actors, mode)| == 0
    ensures PanelRecords(host, mode, hidden, provider) == []
    ensures var r := UpdatedState(mode, hidden, activeTab, true, host, provider);
      var result := provider.getUpdate([]);
      && r.Some? && ActorsKey in r.value
      && (ActorsKey !in result.1 ==> r.value[ActorsKey] == ActorList(result.0))
  {
    var source := SourceActors(host.actors, mode);
    assert Dedup(source) == [];
    assert ShownActors(host.actors, mode, hidden) == [];
  }

  /** The statement-by-statement form of `update()`, whose specification is
      `UpdatedState`: the same steps on the panel's fields passed as values, with tab
      reconciliation done by the source's loops. `None` on the early exit, otherwise
      the new state object. */
  method ComputeState(mode: int, hidden: seq<string>, activeTab: string, ignoreNoActors: bool,
                      host: Host, provider: SystemProvider) returns (next: Option<ViewState>)
    ensures next == UpdatedState(mode, hidden, activeTab, ignoreNoActors, host, provider)
  {
    var actors := SourceActors(host.actors, mode);
    if |actors| == 0 && !ignoreNoActors {
      return None;
    }
    actors := Dedup(actors);
    actors := FilterByMode(actors, mode, hidden);
    var records := Project(actors, hidden, provider.getActorDetails);
    var result := provider.getUpdate(records);
    var tabs := ReconcileTabs(host.tabVisibility, provider.tabs, host.isGM);
    next := Some(Assemble(activeTab, mode, result.0, result.1, tabs));
  }

  /** The two-actor roster of the scenario below: Aria has one token on the scene,
      Borin two. */
  function ScenarioRoster(): seq<HostActor>
  {
    [HostActor(Actor("a1", "Aria Swift"), true, [Actor("a1", "Aria Swift")]),
     HostActor(Actor("a2", "Borin Oak"), true, [Actor("a2", "Borin Oak"), Actor("a2", "Borin Oak")])]
  }

  lemma ScenarioSource(mode: int)
    requires mode != ShowMore
    ensures SourceActors(ScenarioRoster(), mode)
      == [Actor("a1", "Aria Swift"), Actor("a2", "Borin Oak"), Actor("a2", "Borin Oak")]
  {
    var roster := ScenarioRoster();
    assert roster[..1][..0] == [];
    assert Owned(roster[..1]) == roster[..1];
    assert Owned(roster) == roster;
    assert TokenActors(roster[..1]) == [Actor("a1", "Aria Swift")];
  }

  lemma ScenarioDedupPrefix()
    ensures Dedup([Actor("a1", "Aria Swift"), Actor("a2", "Borin Oak")])
      == [Actor("a1", "Aria Swift"), Actor("a2", "Borin Oak")]
  {
    var aria, borin := Actor("a1", "Aria Swift"), Actor("a2", "Borin Oak");
    assert [aria, borin][..1] == [aria] && [aria][..0] == [];
    assert Dedup([aria]) == [aria];
    assert Ids([aria]) == ["a1"];
  }

  lemma ScenarioDedup()
    ensures Dedup([Actor("a1", "Aria Swift"), Actor("a2", "Borin Oak"), Actor("a2", "Borin Oak")])
      == [Actor("a1", "Aria Swift"), Actor("a2", "Borin Oak")]
  {
    var aria, borin := Actor("a1", "Aria Swift"), Actor("a2", "Borin Oak");
    assert [aria, borin, borin][..2] == [aria, borin];
    ScenarioDedupPrefix();
    assert Ids([aria, borin])[1] == "a2";
  }

  lemma ScenarioFilter()
    ensures FilterByMode([Actor("a1", "Aria Swift"), Actor("a2", "Borin Oak")], ShowVisible, ["a2"])
      == [Actor("a1", "Aria Swift")]
    ensures FilterByMode([Actor("a1", "Aria Swift"), Actor("a2", "Borin Oak")], ShowHidden, ["a2"])
      == [Actor("a2", "Borin Oak")]
  {
    var aria, borin := Actor("a1", "Aria Swift"), Actor("a2", "Borin Oak");
    assert [aria, borin][..1] == [aria] && [aria][..0] == [];
    assert KeepByMembership([aria], ["a2"], false) == [aria];
    assert KeepByMembership([aria], ["a2"], true) == [];
  }

  lemma ScenarioNames()
    ensures ShortestName("Aria Swift") == "Aria" && ShortestName("Borin Oak") == "Borin"
  {
    ShortestNameUpTo("Aria Swift", 4);
    assert "Aria Swift"[..4] == "Aria";
    ShortestNameUpTo("Borin Oak", 5);
    assert "Borin Oak"[..5] == "Borin";
  }

  /** Two player-owned actors, the second one hidden and with two tokens on the scene:
      the visible mode shows only the first, named "Aria"; the hidden mode shows only
      the second, once, named "Borin". */
  lemma TwoActorScenario()
    ensures ShownActors(ScenarioRoster(), ShowVisible, ["a2"]) == [Actor("a1", "Aria Swift")]
    ensures ShownActors(ScenarioRoster(), ShowHidden, ["a2"]) == [Actor("a2", "Borin Oak")]
    ensures ShortestName("Aria Swift") == "Aria" && ShortestName("Borin Oak") == "Borin"
  {
    ScenarioSource(ShowVisible);
    ScenarioSource(ShowHidden);
    ScenarioDedup();
    ScenarioFilter();
    ScenarioNames();
  }

  /** The panel. Between refreshes it keeps the hidden list, the display mode, the
      active tab, the last state object and whether empty lists are ignored. */
  class PartyOverviewApp {
    var hiddenActors: seq<string>
    var state: ViewState
    var displayMode: int
    var activeTab: string
    var ignoreNoActors: bool

    /** The display mode is one of the four modes and no id is hidden twice. */
    ghost predicate Valid()
      reads this
    {
      IsMode(displayMode) && NoDuplicates(hiddenActors)
    }

    /** Nothing hidden, an empty state, the visible mode and the general tab.
        (`ignoreNoActors` is unset until the first render, which reads as false.) */
    constructor ()
      ensures Valid()
      ensures hiddenActors == [] && state == map[] && displayMode == ShowVisible
      ensures activeTab == "general" && !ignoreNoActors
    {
      hiddenActors := [];
      state := map[];
      displayMode := ShowVisible;
      activeTab := "general";
      ignoreNoActors := false;
    }

    /** `update()`: recompute the state object, or leave it as it was on the early exit. */
    method Update(host: Host, provider: SystemProvider)
      modifies this`state
      ensures var r := UpdatedState(displayMode, hiddenActors, activeTab, ignoreNoActors, host, provider);
        state == if r.Some? then r.value else old(state)
    {
      var next := ComputeState(displayMode, hiddenActors, activeTab, ignoreNoActors, host, provider);
      if next.Some? {
        state := next.value;
      }
    }

    /** The part of `render` that belongs to the panel: remember whether the coming
        refresh should ignore an empty list. */
    method Render(ignoreNoActors: bool)
      modifies this`ignoreNoActors
      ensures this.ignoreNoActors == ignoreNoActors
    {
      this.ignoreNoActors := ignoreNoActors;
    }

    /** The visibility button: toggle the actor's id in the hidden list, then render
        without ignoring empty lists. */
    method ToggleVisibility(actorId: string)
      requires Valid()
      modifies this`hiddenActors, this`ignoreNoActors
      ensures Valid()
      ensures hiddenActors == Toggled(old(hiddenActors), actorId)
      ensures !ignoreNoActors
    {
      ToggledKeepsNoDuplicates(hiddenActors, actorId);
      hiddenActors := if actorId in hiddenActors then Without(hiddenActors, actorId)
                      else hiddenActors + [actorId];
      Render(false);
    }

    /** The filter button: advance to the next display mode, then render without
        ignoring empty lists. */
    method CycleDisplayMode()
      requires Valid()
      modifies this`displayMode, this`ignoreNoActors
      ensures Valid()
      ensures displayMode == NextMode(old(displayMode))
      ensures displayMode == (old(displayMode) + 1) % ModeCount
      ensures !ignoreNoActors
    {
      displayMode := displayMode + 1;
      if displayMode > ModeCount - 1 {
        displayMode := ShowAll;
      }
      Render(false);
    }
  }
}
