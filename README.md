# Party overview: display-state model

A Dafny model of the core of the party overview panel of a virtual-tabletop
module (`module/logic.js`, class `PartyOverviewApp`). On every refresh the panel
recomputes the state object its template renders. It does so in these steps:

1. It takes the player-owned actors. In every display mode except "more", it
   replaces them with the actors behind their active tokens.
2. It returns early on an empty list, unless empty lists are being ignored.
3. It removes duplicate ids and keeps each id's first occurrence.
4. It filters by the gamemaster's hidden list, according to the display mode.
5. It projects each actor to a record: the ruleset adapter's details (dropped
   when the call throws), plus `shortestName` and `isHidden`.
6. It passes the records through the adapter's `getUpdate`.
7. It reconciles the stored tab-visibility setting with the adapter's tabs.
8. It assembles `{activeTab, mode, actors, ...updates, tabs}`.

The model also covers the two button handlers that change the panel's state.
One toggles an actor id in the hidden list. The other cycles the four display
modes.

Layout:

- `roster.dfy` (`Roster`): source selection, de-duplication and the mode filter
  (steps 1, 3, 4). These are pure functions, because the source writes them as
  `filter`/`map`/`flat`/`reduce` expressions.
- `projection.dfy` (`Projection`): records and `shortestName` (step 5). A record
  is a map from property names to values, so the object spread is map update in
  the source's order.
- `tabs.dfy` (`Tabs`): tab reconciliation (step 7). The source's two loops are
  methods with loop invariants, proved equal to the specification function
  `Reconciled`.
- `party_overview.dfy` (`PartyOverview`): the adapter and the host inputs as
  values, state assembly (step 8), the whole refresh (`ComputeState`,
  `UpdatedState`), and the class `PartyOverviewApp`. The class holds the fields
  `hiddenActors`, `state`, `displayMode`, `activeTab` and `ignoreNoActors`, which
  its methods update in place.
- `display_mode.dfy` (`DisplayMode`): the mode enum and its successor.
- `hidden_actors.dfy` (`HiddenActors`): the hidden-list toggle.
- `subsequence.dfy`, `wrappers.dfy`: the order-preserving subsequence relation
  and `Option`.

Host facilities are inputs to the model:

- The actor directory, each actor's player-owner flag and the actors behind
  its active tokens form a sequence of `HostActor` values.
- The stored tab-visibility setting is a map.
- Whether the user is a gamemaster is a boolean.

The ruleset adapter is a value with three members:

- `getActorDetails`: an arbitrary function that may fail (`None` stands for a
  throw).
- `getUpdate`: an arbitrary function whose output is only passed through.
- `tabs`: the map of the tabs the ruleset declares.

Behaviour of `module/logic.js` worth noting:

- Missing tabs are added only when the stored setting and the adapter have
  different numbers of keys (module/logic.js:61 compares key counts, not keys).
  When a stored map of the same size has different keys, `tabs` gets no entry
  for a newly declared tab, even for a gamemaster
  (`Tabs.SameSizeAddsNothing`, `Tabs.RenamedTabStaysMissing`).
- The state literal at module/logic.js:78-84 places `...updates` after
  `activeTab`, `mode` and `actors` and before `tabs`. The adapter's extra
  properties can therefore replace the first three but never `tabs`
  (`PartyOverview.Assemble`). With an empty source list and empty lists
  ignored, the state's `actors` is whatever `getUpdate([])` returns.
- A record whose details call failed holds only `shortestName` and `isHidden`
  (module/logic.js:49-54). It has no actor id, because the id reaches the record
  only through the adapter's details.

## Model

| member | source | states |
|---|---|---|
| Roster.Owned | module/logic.js:22 | the player-owned entries, in directory order: a subsequence of the directory holding exactly the entries with a player owner |
| Roster.TokenActors | module/logic.js:24-27 | the flattened token actors: an actor is in the result exactly when it stands behind an active token of one of the entries; a single entry gives exactly its token actors, in order |
| Roster.TokenActorsAppend | module/logic.js:24-27 | flattening is in order: the token actors of two consecutive stretches of the directory are those of the first followed by those of the second |
| Roster.SourceActors | module/logic.js:22-28 | in the "more" mode the result holds exactly the player-owned actors; in every other mode it holds exactly the actors behind the active tokens of player-owned actors |
| Roster.Dedup | module/logic.js:32 | the `reduce` yields pairwise-distinct ids, only actors of its input, and every id of its input |
| Roster.DedupKeepsFirstOccurrences | module/logic.js:32 | the `reduce` equals the reference selection of the actors at first-occurrence positions, in input order |
| Roster.DedupIsSubsequence | module/logic.js:32 | the de-duplicated list is an order-preserving subsequence of the input and loses no id |
| Roster.FirstOccurrencesSubsequence | module/logic.js:32 | the first-occurrence selection is an order-preserving subsequence of its input |
| Roster.KeepByMembership | module/logic.js:36-39 | the `filter` keeps a subsequence: exactly the actors whose hidden-list membership is the wanted one |
| Roster.FilterByMode | module/logic.js:34-41 | the hidden mode keeps exactly the hidden actors and the visible mode exactly the others; every other mode leaves the list unchanged; in all modes the result is a subsequence of the input |
| Roster.DistinctIdsSubsequence | module/logic.js:32-41 | filtering a de-duplicated list cannot reintroduce a duplicate id |
| Roster.ShownActors | module/logic.js:22-41 | the shown actors (selected, de-duplicated, filtered) have pairwise-distinct ids and are a subsequence of the source list; the mode rules are in `ShownActorsProperties` |
| Roster.ShownActorsProperties | module/logic.js:22-41 | the shown actors have distinct ids and are a subsequence of the source list; the visible mode shows no hidden id and every non-hidden source id; the hidden mode shows only hidden ids and every hidden source id; the all and "more" modes show every source id |
| Projection.IsWhitespace | module/logic.js:51 | the `\s` class of the split: the ECMAScript whitespace and line-terminator characters; `ShortestName` stops at the first of them |
| Projection.ShortestName | module/logic.js:51 | the short name is a whitespace-free prefix of the name; it is either the whole name or is followed by whitespace; it is empty when the name starts with whitespace |
| Projection.ShortestNameUpTo | module/logic.js:51 | when the first whitespace character of the name is at position i, the short name is exactly the first i characters |
| Projection.ProjectActor | module/logic.js:44-54 | a failed details call gives a record with only `shortestName` and `isHidden`; a successful one keeps every other detail property; `isHidden` is hidden-list membership and `shortestName` the short name |
| Projection.Project | module/logic.js:43-55 | one record per actor, in order, failures included, each with the right `isHidden`, `shortestName` and property set |
| DisplayMode.NextMode | module/logic.js:121-122 | from any of the four modes, one press gives a mode again, namely the next one modulo four |
| DisplayMode.PressesAdvance | module/logic.js:121-122 | after n presses the mode is the start plus n, modulo four, and is still one of the four modes |
| DisplayMode.FullCycleReturns | module/logic.js:121-122 | four presses, or any multiple of four, return to the starting mode |
| DisplayMode.LastWrapsToFirst | module/logic.js:3-8 | the enum's order cycles all, visible, hidden, more, then back to all |
| HiddenActors.Without | module/logic.js:116 | removing an id keeps exactly the other ids and keeps the list duplicate-free |
| HiddenActors.WithoutAbsent | module/logic.js:116 | removing an absent id leaves the list unchanged |
| HiddenActors.Toggled | module/logic.js:116 | toggling flips the membership of the toggled id and leaves the membership of every other id unchanged |
| HiddenActors.ToggledKeepsNoDuplicates | module/logic.js:116 | a duplicate-free hidden list stays duplicate-free |
| HiddenActors.ToggleTwice | module/logic.js:116 | toggling twice restores every membership; it restores the list itself when the id was absent, and moves the id to the end when it was present |
| Tabs.DefaultEntry | module/logic.js:64-68 | an inserted entry copies the declared id and localization and is visible |
| Tabs.MissingDefaults | module/logic.js:62-70 | a default entry for exactly the declared tabs the setting lacks |
| Tabs.WithDefaults | module/logic.js:62-70 | every declared tab gets an entry; existing entries are kept and new ones are defaults |
| Tabs.AllVisible | module/logic.js:72-76 | the same keys, every entry visible, ids and localizations kept |
| Tabs.FillMissing | module/logic.js:61-71 | the guarded missing-key pass: the setting unchanged when the key counts agree, every declared tab covered when they differ |
| Tabs.Reconciled | module/logic.js:60-76 | when the key counts differ, the keys are the stored ones plus the declared ones, otherwise only the stored ones; added entries are defaults; stored ids and localizations are never overwritten; a gamemaster gets every entry visible; for anyone else stored entries are unchanged |
| Tabs.InsertDefaults | module/logic.js:62-70 | the `for…in` loop produces the stored setting completed with defaults |
| Tabs.AddMissingTabs | module/logic.js:61-71 | the guarded loop produces the missing-key pass of `Reconciled` |
| Tabs.ShowAllTabs | module/logic.js:72-75 | the `forEach` loop produces the all-visible map |
| Tabs.ReconcileTabs | module/logic.js:60-76 | both passes together equal `Reconciled` |
| Tabs.SameSizeAddsNothing | module/logic.js:61 | when the key counts agree, no declared tab missing from the setting is added |
| Tabs.RenamedTabStaysMissing | module/logic.js:61 | a gamemaster whose setting has a tab in place of a renamed one gets no entry for the new tab |
| Tabs.DifferentSizeCoversDeclaredTabs | module/logic.js:61-76 | when the key counts differ, every declared tab has an entry, visible for a gamemaster |
| PartyOverview.Assemble | module/logic.js:78-84 | the state holds `activeTab`, `mode`, `actors`, the adapter's properties and `tabs`; `tabs` is always the reconciled map; the first three hold the panel's values unless the adapter supplies them |
| PartyOverview.UpdatedState | module/logic.js:21-84 | the value of `update()`: no new state exactly on an empty source list that is not ignored, otherwise a state whose `tabs` is the reconciled map; its mode and tab are in `UpdatedStateShape` |
| PartyOverview.UpdatedStateShape | module/logic.js:29 | the early exit happens exactly on an empty source list that is not ignored; otherwise the state holds the current mode and tab (unless the adapter overrides them) and the reconciled tabs |
| PartyOverview.PanelRecords | module/logic.js:43-55 | one record per shown actor; `PanelRecordsProperties` gives each record's content |
| PartyOverview.PanelRecordsProperties | module/logic.js:43-55 | the records given to `getUpdate` number exactly the shown actors, which have distinct ids; each record's `isHidden` is its actor's membership, and a failed actor has only the two computed properties |
| PartyOverview.IgnoredEmptySourceGivesNoRecords | module/logic.js:29-58 | with an empty source list and empty lists ignored, a state is produced and `getUpdate` receives no records |
| PartyOverview.ComputeState | module/logic.js:21-84 | the steps of `update()` in order compute `UpdatedState` |
| PartyOverview.TwoActorScenario | module/logic.js:22-55 | with Aria visible and Borin hidden (Borin with two tokens), the visible mode shows only Aria as "Aria" and the hidden mode only Borin, once, as "Borin" |
| PartyOverview.PartyOverviewApp.constructor | module/logic.js:11-19 | the panel starts with an empty hidden list and an empty state, in the visible mode, on the general tab |
| PartyOverview.PartyOverviewApp.Update | module/logic.js:21-84 | the state becomes the newly computed one, or stays as it was on the early exit; no other field changes |
| PartyOverview.PartyOverviewApp.Render | module/logic.js:140-144 | records whether the coming refresh ignores an empty list |
| PartyOverview.PartyOverviewApp.ToggleVisibility | module/logic.js:114-118 | the hidden list becomes its toggle, stays duplicate-free, and the refresh does not ignore empty lists |
| PartyOverview.PartyOverviewApp.CycleDisplayMode | module/logic.js:120-124 | the mode advances to the next one modulo four, stays among the four modes, and the refresh does not ignore empty lists |

## Left out

- Host globals (`game.actors`, `game.settings`, `game.user`, `getActiveTokens`) are parameters: their real behaviour belongs to the host.
- The settings object returned by the host is mutated in place by the source. Whether that changes the host's cached setting (aliasing) is not modelled; the model works on a copy.
- The adapter module (`./api.js`) is not part of this model. Its `getActorDetails` is an arbitrary partial function, and `getUpdate` and `tabs` are arbitrary inputs. An exception thrown by `getUpdate`, or by reading an actor's name outside the `try`, is not modelled.
- Record values are integers, strings and booleans. Floating-point numbers, nested objects and `undefined`/`null` details are not modelled. A successful details call yields a record.
- `!tabs[tab]` is modelled as key absence: a stored entry is always a non-empty object.
- The iteration order of `for…in` and `forEach` is not modelled. The loops pick keys in any order, and the map's contents do not depend on it. The JavaScript object's key order, which follows insertion order, is not modelled.
- The CSS sizing side effects (module/logic.js:85-87) are left out: they are DOM output only.
- `defaultOptions`, `getData`, `close`, the `rendering` flag, the `force` argument to `render`, and the call into the framework's `render` are left out. They are thin wrappers over the host's application base class.
- The jQuery event wiring and the hover text for hit points (module/logic.js:113-138) are left out: they are UI plumbing. The two click handlers' effects are modelled as `ToggleVisibility` and `CycleDisplayMode`.
- The `console.error` diagnostic (module/logic.js:47) is logging only and is left out.
