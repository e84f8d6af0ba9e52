/**
  Tab visibility (module/logic.js:60-76). The adapter declares the tabs of the
  ruleset; the persisted setting maps tab keys to entries with a `visible` flag.
  `update()` adds a default entry for every declared tab that has none, but only
  when the two maps have different numbers of keys, and then, for a gamemaster,
  sets every entry visible.
 */
module Tabs {

  /** A tab as the adapter declares it. */
  datatype TabDef = TabDef(id: string, localization: string)

  /** A tab as the visibility setting stores it. */
  datatype TabEntry = TabEntry(id: string, localization: string, visible: bool)

  /** The entry inserted for a declared tab that the setting lacks. */
  function DefaultEntry(d: TabDef): (e: TabEntry)
    ensures e.id == d.id && e.localization == d.localization && e.visible
  {
    TabEntry(d.id, d.localization, true)
  }

  /** A default entry for each declared tab that the setting lacks. */
  function MissingDefaults(persisted: map<string, TabEntry>, defs: map<string, TabDef>): (r: map<string, TabEntry>)
    ensures r.Keys == defs.Keys - persisted.Keys
    ensures forall k | k in r :: r[k] == DefaultEntry(defs[k])
  {
    map k | k in defs.Keys - persisted.Keys :: DefaultEntry(defs[k])
  }

  /** The setting with a default entry added for every declared tab it lacks. */
  function WithDefaults(persisted: map<string, TabEntry>, defs: map<string, TabDef>): (r: map<string, TabEntry>)
    ensures r.Keys == persisted.Keys + defs.Keys
    ensures forall k | k in persisted :: r[k] == persisted[k]
    ensures forall k | k in r && k !in persisted :: k in defs && r[k] == DefaultEntry(defs[k])
  {
    persisted + MissingDefaults(persisted, defs)
  }

  /** The setting after the missing-key pass: untouched when the key counts agree. */
  function FillMissing(persisted: map<string, TabEntry>, defs: map<string, TabDef>): (r: map<string, TabEntry>)
    ensures |persisted| == |defs| ==> r == persisted
    ensures |persisted| != |defs| ==> defs.Keys <= r.Keys
  {
    if |persisted| != |defs| then WithDefaults(persisted, defs) else persisted
  }

  /** The setting after the gamemaster pass. */
  function AllVisible(tabs: map<string, TabEntry>): (r: map<string, TabEntry>)
    ensures r.Keys == tabs.Keys
    ensures forall k | k in tabs :: r[k].visible && r[k].id == tabs[k].id && r[k].localization == tabs[k].localization
  {
    map k | k in tabs :: tabs[k].(visible := true)
  }

  /** The map `update()` puts in the state under `tabs`. */
  function Reconciled(persisted: map<string, TabEntry>, defs: map<string, TabDef>, isGM: bool): (r: map<string, TabEntry>)
    ensures |persisted| != |defs| ==> r.Keys == persisted.Keys + defs.Keys
    ensures |persisted| == |defs| ==> r.Keys == persisted.Keys
    ensures forall k | k in r && k !in persisted ::
      k in defs && r[k] == DefaultEntry(defs[k])
    ensures forall k | k in persisted ::
      r[k].id == persisted[k].id && r[k].localization == persisted[k].localization
    ensures isGM ==> forall k | k in r :: r[k].visible
    ensures !isGM ==> forall k | k in persisted :: r[k] == persisted[k]
  {
    var filled := FillMissing(persisted, defs);
    if isGM then AllVisible(filled) else filled
  }

  /** The body of the `for…in` loop over the declared tabs: a default entry for each
      declared tab the setting lacks, existing entries kept. */
  method InsertDefaults(persisted: map<string, TabEntry>, defs: map<string, TabDef>)
    returns (tabs: map<string, TabEntry>)
    ensures tabs == WithDefaults(persisted, defs)
  {
    tabs := persisted;
    var pending := defs.Keys;
    while pending != {}
      invariant pending <= defs.Keys
      invariant tabs.Keys == persisted.Keys + (defs.Keys - pending)
      invariant forall k | k in persisted :: tabs[k] == persisted[k]
      invariant forall k | k in tabs && k !in persisted :: k in defs && tabs[k] == DefaultEntry(defs[k])
      decreases pending
    {
      var tab :| tab in pending;
      if tab !in tabs {
        tabs := tabs[tab := DefaultEntry(defs[tab])];
      }
      pending := pending - {tab};
    }
  }

  /** The missing-key pass, guarded by the key-count comparison. */
  method AddMissingTabs(persisted: map<string, TabEntry>, defs: map<string, TabDef>)
    returns (tabs: map<string, TabEntry>)
    ensures tabs == FillMissing(persisted, defs)
  {
    if |persisted| != |defs| {
      tabs := InsertDefaults(persisted, defs);
    } else {
      tabs := persisted;
    }
  }

  /** The gamemaster's `forEach` over the keys: every entry made visible. */
  method ShowAllTabs(filled: map<string, TabEntry>) returns (tabs: map<string, TabEntry>)
    ensures tabs == AllVisible(filled)
  {
    tabs := filled;
    var pending := tabs.Keys;
    while pending != {}
      invariant pending <= filled.Keys && tabs.Keys == filled.Keys
      invariant forall k | k in pending :: tabs[k] == filled[k]
      invariant forall k | k in filled && k !in pending :: tabs[k] == filled[k].(visible := true)
      decreases pending
    {
      var key :| key in pending;
      tabs := tabs[key := tabs[key].(visible := true)];
      pending := pending - {key};
    }
    ghost var expected := AllVisible(filled);
    assert tabs.Keys == expected.Keys;
    assert forall k | k in tabs :: tabs[k] == expected[k];
  }

  /** Both passes of `update()` over the visibility setting. */
  method ReconcileTabs(persisted: map<string, TabEntry>, defs: map<string, TabDef>, isGM: bool)
    returns (tabs: map<string, TabEntry>)
    ensures tabs == Reconciled(persisted, defs, isGM)
  {
    tabs := AddMissingTabs(persisted, defs);
    if isGM {
      tabs := ShowAllTabs(tabs);
    }
  }

  /** When the key counts agree, no declared tab is added, even one the setting
      lacks: the count comparison stands in for a key comparison. */
  lemma SameSizeAddsNothing(persisted: map<string, TabEntry>, defs: map<string, TabDef>, isGM: bool)
    requires |persisted| == |defs|
    ensures forall k | k in defs && k !in persisted :: k !in Reconciled(persisted, defs, isGM)
  {
  }

  /** A concrete case: the setting holds a tab the ruleset no longer declares and
      lacks the one it now declares; even a gamemaster gets no entry for the
      declared tab. */
  lemma RenamedTabStaysMissing()
    ensures var persisted := map["general" := TabEntry("general", "General", true),
                                 "old" := TabEntry("old", "Old", false)];
            var defs := map["general" := TabDef("general", "General"),
                            "new" := TabDef("new", "New")];
            "new" !in Reconciled(persisted, defs, true)
  {
    var persisted := map["general" := TabEntry("general", "General", true),
                         "old" := TabEntry("old", "Old", false)];
    var defs := map["general" := TabDef("general", "General"),
                    "new" := TabDef("new", "New")];
    assert |persisted| == 2 && |defs| == 2;
  }

  /** When the key counts differ, every declared tab has an entry afterwards, and a
      gamemaster sees all of them visible. */
  lemma DifferentSizeCoversDeclaredTabs(persisted: map<string, TabEntry>, defs: map<string, TabDef>, isGM: bool)
    requires |persisted| != |defs|
    ensures forall k | k in defs :: k in Reconciled(persisted, defs, isGM)
    ensures isGM ==> forall k | k in defs :: Reconciled(persisted, defs, isGM)[k].visible
  {
  }
}
