# Hakiskilltree skill-graph engine, in Dafny

Hakiskilltree is a single-page skill-tree planner (one file, `script.js`). A
player spends Haki points on the nodes of several skill trees. The trees are
`armament-tree`, `observation-tree` and others, each loaded from a JSON list of
node records. This project models the engine under the page:

- **Loading.** Node records get load-time defaults: an id from the name, a
  type, and a `requires` list (`Skills`, `Text`).
- **Prerequisites.** Whether a node may be selected depends on its
  `requires_operator`: `or`, `and`, or unspecified. Unspecified means OR for
  `shared` nodes and AND for the rest. The availability marks and connector
  flags are derived from this (`Skills`).
- **Selection.** This is the state machine of a click: select, with the
  prerequisite and budget checks and the pool-choice and awakening prompts; or
  deselect, guarded by selected dependents. It also covers `getSpent` and
  `resetAllSkills` (`Selection`). The class `Session.Session` holds the mutable
  globals and node fields. Its handlers are proved against those value-level
  transitions.
- **Depth.** `computeDepths` is a memoised recursion guarded by the ids on the
  current path, so it also ends on cyclic input (`Depths`).
- **Layout.** These are the position passes of `layoutAndRender`:
  - nodes are bucketed by depth and lane;
  - a node with placed parents is placed relative to them;
  - a node without is put in its lane's column and anchored by tier;
  - each node is then spread within its sibling group and moved by its manual
    offsets.

  The sibling groups are in `Grouping`, the passes in `Layout`, and the tier
  dividers in `Dividers`.
- **Character sheet.** `computeCharStats` folds the effects of the selected
  nodes: deltas add up, dice take the best rank (`Stats`).
- **Save record.** The record written by `saveProgress` and read by
  `loadProgress` and the page-start restore (`Persistence`).
- **Random build.** The mode filter, the eligibility check and the picking loop
  of `randomizeSkills` (`Randomize`, `Session.PickLoop`).

Keys of the selection set are the strings `treeId::skillId`. A node object is a
`Ref(tree, index)`. Its `_poolChoiceValue` and `_awakening` fields are maps
keyed by `Ref`. Coordinates are `real`, and `Math.round` is `(v + 0.5).Floor`.

**Where the code and the repository's description differ, the model follows
the code:**

- **A cancelled prompt.** The description says a cancelled prompt leaves no
  value behind. In the code, a pool choice answered before a cancelled
  awakening prompt stays on the node (`Selection.CancelRollsBack`).
- **Deselect.** Every operator other than `or` blocks deselect, including an
  unspecified operator on a `shared` node. Deselect clears only `_awakening`,
  and only on `armament_awakening`.

## Model

| member | source | states |
|---|---|---|
| Text.Lower | script.js:58 | `toLowerCase` keeps the length and lower-cases each character on its own |
| Text.LowerIdempotent | script.js:58-59 | lower-casing a lower-cased type or tag changes nothing |
| Text.LowerKeeps | script.js:58-59 | a string without upper-case letters is its own lower case |
| Text.SkipSpaces | script.js:58 | drops exactly the leading whitespace run: what is left is a suffix that does not start with whitespace, shorter when the input started with some |
| Text.UnderscoredIsSpaceless | script.js:58 | `replace(/\s+/g, "_")` leaves no whitespace character |
| Text.UnderscoredKeepsSpaceless | script.js:58 | a name without whitespace passes through `replace(/\s+/g, "_")` unchanged |
| Text.SkipSpacesRun | script.js:58 | a whole whitespace run in front of a non-whitespace start is skipped |
| Text.UnderscoredRun | script.js:58 | `replace(/\s+/g, "_")` keeps a whitespace-free prefix and turns the maximal whitespace run after it into exactly one `_` |
| Text.Slug | script.js:58 | an id made from a name holds no whitespace; with `Text.UnderscoredRun`, its whitespace runs each became one `_` |
| Text.KeyInjective | script.js:808 | two `treeId::id` keys over ':'-free tree ids are equal only for the same tree and the same id |
| Text.KeyCancel | script.js:808 | within one tree, equal keys mean equal ids |
| Text.FindSep | script.js:187 | finds the first `"::"` at or after a position, or reports that there is none |
| Text.FirstSepOfKey | script.js:187 | the first `"::"` of a key over a ':'-free tree id ends the tree id |
| Text.SecondFieldOfKey | script.js:187-188 | `key.split("::")[1]` of a key gives back its skill id when the id holds no `"::"` |
| Text.PrefixedKey | script.js:946-950 | a selected key that starts with `treeId::` and holds no further `"::"` is the key of its `split("::")[1]` |
| Skills.Normalise | script.js:57-61 | the loader's defaults: a record with neither id nor name is refused; a non-empty id is kept, and a missing or empty one becomes the slug of the name, which holds no whitespace; the type is lower-cased and defaults to `shared`; `requires` becomes a list, a list is kept as given, one id for a non-empty string and none when it is missing |
| Skills.EmptyRequiresAlwaysMet | script.js:847-848 | a node with no requirements always passes the prerequisite check |
| Skills.PrereqCases | script.js:847-874 | `or` holds iff some `treeId::rid` is selected and `and` iff all are; an unspecified operator behaves as `or` on a `shared` node and as `and` otherwise; each is stated both ways |
| Skills.PrereqMonotone | script.js:847-874 | selecting more never withdraws a met prerequisite |
| Skills.PrereqFrame | script.js:847-874 | the check reads the selection only at the node's own requirement keys |
| Skills.BareIdsExact | script.js:946-950 | the availability pass's id set holds `rid` exactly when `treeId::rid` is selected |
| Skills.AvailabilityAgreesWithSelect | script.js:945-971 | a node is marked available iff it is not selected and the select handler's prerequisite check holds |
| Skills.AllRefs | script.js:167 | `flatMap(s => s.data)` lists exactly the node objects of all trees |
| Skills.TreeRefs | script.js:1021 | one tree's node objects, in file order |
| Skills.FirstNode | script.js:167-189 | the lookup `find(n => n.id === sid)` over all trees returns the first node with that id in load order, or none when no tree holds the id |
| Skills.FirstStore | script.js:816 | `find(s => s.treeId === treeId)` returns the first tree with that id, or none |
| Skills.FirstWithId | script.js:494 | `data.find(s => s.id === reqId)` returns the first node with that id, or none |
| Skills.EdgesOf | script.js:493-510 | one node's connectors: each runs to the node and starts at a node one of its requirements names, and every requirement that names a node has one |
| Skills.EdgesSound | script.js:491-511 | every drawn connector runs from a node to a node that requires its id |
| Skills.EdgesComplete | script.js:491-511 | every requirement that names a node of the tree gets its connector |
| Skills.AvailableEdgeNotActive | script.js:975-1003 | a connector marked available leads to an unselected node, so it is never active |
| Grouping.Insert | script.js:293 | inserting into a sorted list keeps it sorted and adds exactly one copy of the string |
| Grouping.SortStrings | script.js:293 | `slice().sort()` of the requirement ids is sorted by code unit and a permutation of them |
| Grouping.SortedUnique | script.js:293 | two sorted permutations of the same ids are the same list |
| Grouping.GroupKeyOrderFree | script.js:292-295 | a node's sibling group depends on which ids it requires and on its tag, not on the order its file lists them in |
| Grouping.TabulateAt | script.js:292-298 | the per-node key table holds each node's own key at its index |
| Grouping.GroupKeysAt | script.js:292-298 | the group-key table holds `sorted(requires).join('\|') + '::' + tag` of each node |
| Grouping.CountIn | script.js:297 | how many of the first nodes share a key is at most how many nodes were looked at |
| Grouping.GroupIndexBelowSize | script.js:455-461 | `groupArr.indexOf(node)` is below `groupArr.length`, and a node with an earlier sibling is in a group of two or more |
| Grouping.GroupIndexOrdered | script.js:290-298 | nodes of one group take distinct places in it, in file order |
| Depths.ByIdLastWins | script.js:249-250 | `byId` knows exactly the tree's ids, and a repeated id keeps the requirements of its last node |
| Depths.MaxOfIsMax | script.js:260 | `Math.max(...vals)` bounds every value and is one of them |
| Depths.TrueDepthStep | script.js:256-260 | on acyclic requirements a node with requirements lies one level below its deepest requirement and deeper than each |
| Depths.DepthResolver.constructor | script.js:251 | the memo starts empty |
| Depths.DepthResolver.Depth | script.js:252-261 | memoised values never change; an unknown id or one without requirements gets 0 and is memoised; an id already on the path gets 0 and is not memoised; any other id gets 1 plus the largest of its requirements' answers, at least 1, and is memoised, on any input, cyclic included; on acyclic requirements it is the true depth; it ends on every input, by the ids not yet on the path |
| Depths.DepthResolver.ReqsDepth | script.js:259-260 | `Math.max(...vals)` on any input: the largest answer the recursion gave for the requirements, each read back as the memoised depth, or 0 for a requirement that lay on the path (the id included) and so was not memoised; on acyclic requirements it is the deepest requirement's true depth |
| Depths.ComputeDepths | script.js:248-263 | every node's id gets a depth; a depth is 0 exactly for unknown ids and ids without requirements; on acyclic requirements every depth is the true depth, which `Depths.TrueDepthStep` relates to the requirements |
| Layout.Round | script.js:449 | `Math.round` gives an integer within half of its argument, halves rounded up |
| Layout.PlacedParents | script.js:327-330 | the parents the pass sees are at most one per requirement, each a node of the tree that is already placed |
| Layout.MaxInt | script.js:446 | `Math.max(...)` of a non-empty list bounds every element and is one of them |
| Layout.TierBaseRepairs | script.js:433-447 | the intended tier base agrees with the code wherever the code does not throw; the code throws exactly for an untiered node with requirements, and there the intended base is 200 times the highest requirement tier |
| Layout.OrphanThrows | script.js:432-447 | an untiered node that requires an id its tree lacks has no placed parent, so it is anchored by tier, and the code throws there |
| Layout.BesideSpread | script.js:352-471 | parent-relative placement followed by the grouping pass: the x and y of each tag in terms of the parent, the tier extra and the group index (left and right variants move 150 plus 140 per earlier sibling, down variants 150 plus 70) |
| Layout.FactsFields | script.js:290-479 | the facts the pass reads for a node are its requirements, tag, tier, group index and size, tier base and offsets |
| Layout.ParentRelative | script.js:333-481 | a node with one placed parent, or several when it is not `between`, goes 150 (plus its group spread) to the side for the left and right tags and stays at the parent's x otherwise; it goes 250 plus its tier extra above the parent, keeps the parent's height for `left` and `right` and goes 250 below for the `down` tags (both unless its tier is above 1); later `up` and `between` siblings rise 110 each; the manual offsets are added last |
| Layout.BetweenParents | script.js:340-481 | a `between` node with several placed parents sits at their mean x and at their rounded mean y less its tier extra; later siblings rise 110 each; the offsets are added last |
| Layout.TierAnchored | script.js:400-481 | a node without placed parents is anchored at `500 − tierBase − 125·depth + stackY`, rounded, with the shared lane's 90 per index; later `up` and `between` siblings rise 110 each, and the offsets are added last |
| Layout.MaxDepthBounds | script.js:268-274 | no node lies deeper than `maxDepth` |
| Layout.NodesAtExact | script.js:300-306 | a lane's bucket at a depth holds exactly the nodes of that depth and lane |
| Layout.NodeTurnAtDepth | script.js:300-314 | every node has a turn at its own depth, in its own lane |
| Layout.TurnIffNode | script.js:300-314 | the passes over depths `0..maxDepth` and the three lanes take a turn for every node of the tree and for nothing else |
| Layout.PlaceFromKeys | script.js:314-430 | after a run of turns a node is placed exactly when it was placed before or had a turn |
| Layout.EveryNodePlaced | script.js:300-483 | the pass places exactly the nodes of the tree, whatever the placing step |
| Layout.PlaceLane | script.js:314-482 | the inner loop places the nodes of one lane at one depth, in file order, each seeing the positions before it |
| Layout.PlaceDepth | script.js:308-483 | the middle loop places the lanes of one depth in the order offense, shared, defense |
| Layout.PlaceLevels | script.js:300-484 | the outer loop places the depths `0..maxDepth` in order |
| Layout.Deepest | script.js:268-274 | the first pass finds the deepest level of the tree |
| Layout.Layout | script.js:265-484 | the positions of `layoutAndRender` are the turns of the pass applied in order, each computed by the per-node placement from the facts and the positions so far; the facts use the intended tier base, so this is the corrected program where script.js:446 throws (see Findings) |
| Dividers.BoundsExact | script.js:514-522 | a tier gets a bound exactly when some node states it explicitly; the bound is the largest y among that tier's nodes |
| Dividers.TierBounds | script.js:514-522 | the first divider loop computes those bounds |
| Dividers.AscendingCons | script.js:525 | a tier below every tier of an ascending list can go in front |
| Dividers.InsertTier | script.js:525 | the ascending tier list gains a tier once, in its place |
| Dividers.TierDividers | script.js:513-543 | one divider per explicitly stated tier, in strictly ascending tier order, each 60 below its tier's largest y with its label 18 above the line |
| Selection.SpentAdd | script.js:1018-1026 | selecting a new key raises `getSpent()` by what that key costs |
| Selection.SpentRemove | script.js:1018-1026 | removing a key lowers `getSpent()` by what it costs |
| Selection.KeyCostOfNode | script.js:1018-1026 | in well-formed trees a node's key costs exactly `Number(cost \|\| 0)` of that node |
| Selection.SpentNone | script.js:1018-1026 | with nothing selected nothing is spent |
| Selection.OverBudgetRejected | script.js:875-878 | a select with `remaining < cost` is refused with "Not enough Haki points." and changes nothing |
| Selection.RejectedChangesNothing | script.js:813-878 | every refused click leaves the session as it was |
| Selection.SelectCommits | script.js:847-880 | a committed select had its prerequisites and budget and adds exactly the node's key; in well-formed trees `getSpent()` grows by exactly the node's cost and stays within `totalPoints` |
| Selection.CancelRollsBack | script.js:884-924 | a cancelled prompt takes the key out again; the selection, the awakening values, the total and the name are as before, and a pool choice is stored only when its own prompt was answered |
| Selection.DeselectRule | script.js:813-845 | deselect is refused, with the dependents message, exactly when a selected dependent blocks it; otherwise it removes exactly the node's key, clears `_awakening` only on `armament_awakening` and keeps every pool choice |
| Selection.DeselectOperators | script.js:818-836 | a selected dependent whose operator is not `or` always blocks; an `or` dependent blocks iff none of its other requirements is selected |
| Selection.DeselectKeeps | script.js:813-845 | an unblocked deselect keeps the prerequisites of every other selected node |
| Selection.ClickKeepsConsistent | script.js:806-940 | in well-formed trees every click keeps every selected node's prerequisites met |
| Selection.ResetClears | script.js:1127-1147 | after a reset nothing is spent and no node keeps a pool choice; `armament_awakening` nodes lose their awakening value and other nodes keep theirs |
| Selection.TotalFromInput | script.js:1028 | `Number(totalInput?.value \|\| 10)`: an empty field means 10, and a field holding a number, 0 included, gives that number |
| Selection.ShownRemaining | script.js:1029-1030 | the remaining points shown are never below 0 and equal `totalPoints − getSpent()` when that is not negative |
| Persistence.ByIdKeys | script.js:1086-1093 | an id is in a saved per-id map exactly when some node with that id holds a value |
| Persistence.ByIdValue | script.js:1086-1093 | a node that is the only holder of its id is saved with its own value |
| Persistence.RestoreOverSpec | script.js:1110-1119 | the restore loop gives every node whose id the record holds the saved value and leaves every other node's value as it was |
| Persistence.RoundTripMap | script.js:1086-1119 | with unique ids, restoring a saved per-id map gives every saving node its value back and leaves the others as the loading session had them |
| Persistence.SaveLoadRoundTrip | script.js:1079-1121 | loading what was saved restores the selection and every pool choice and awakening value; a zero total or an empty name leaves the loading session's own |
| Persistence.SaveLoadIdentity | script.js:1079-1121 | saving and then loading into the same session changes nothing |
| Persistence.RoundTripInto | script.js:1086-1119 | restoring the save of a map over a part of that map gives the map back |
| Persistence.RestoreOnNodes | script.js:1110-1119 | restoring over values held by node objects attaches values only to node objects |
| Persistence.LoadAfterResetRestoresChoices | script.js:1100-1147 | loading a record saved before a reset brings every pool choice back |
| Session.ClearedStep | script.js:1132-1136 | one node of the reset loop clears its pool choice, and its awakening value when it is `armament_awakening` |
| Session.ClearedTree | script.js:1131-1138 | the reset loop moves on from the last node of a tree to the next tree |
| Session.RestoredStep | script.js:1111-1117 | one node of the restore loop takes the saved values of its id |
| Session.RestoredTree | script.js:1110-1120 | the restore loop moves on from the last node of a tree to the next tree |
| Session.ClearedAll | script.js:1131-1138 | the reset loop over every node leaves what `Reset` describes |
| Session.RestoredAll | script.js:1110-1120 | the restore loop over every node gives the restore of the record |
| Session.DependentsBlock | script.js:816-836 | the `dependents` loop answers whether some node of the tree blocks the deselect |
| Session.Session.constructor | script.js:22-23 | the session starts with nothing selected and the total read from the points field: 10 when it is empty, its number otherwise |
| Session.Session.GetSpent | script.js:1018-1026 | the summing loop returns `getSpent()` |
| Session.Session.UpdateRemaining | script.js:1027-1031 | the total is read again from the field (10 when it is empty) and the shown remainder is never below 0, otherwise total minus spent |
| Session.Session.HandleClick | script.js:806-940 | the click handler's new state and outcome are those of the click transition, whose properties are the `Selection` lemmas |
| Session.Session.ResetAll | script.js:1127-1147 | a confirmed reset leaves the state `Reset` describes, and an unconfirmed one changes nothing |
| Session.Session.ClearTree | script.js:1131-1138 | the reset loop over one tree |
| Session.Session.ApplyRecord | script.js:1104-1119 | applying a record gives the restore that `Persistence` proves round-trips |
| Session.Session.RestoreTree | script.js:1110-1120 | the restore loop over one tree |
| Session.Session.CollectById | script.js:1086-1093 | the per-id maps of the record, a later node with the same id overwriting an earlier one |
| Session.Session.SaveProgress | script.js:1033-1098 | re-applies the automatic slot when there is one, then writes the record of the session |
| Session.Session.LoadProgress | script.js:1100-1125 | without a save nothing changes; with one the session becomes its restore |
| Session.Session.RandomizeSkills | script.js:1149-1275 | with no points left nothing happens; with nothing eligible nothing happens; otherwise the loop picks at least one new key and ends with no eligible node while points remain, never overspending; this is the loop with the eligibility key corrected to the key it adds, as written it need not end (see Findings) |
| Session.PickLoop | script.js:1215-1270 | picking with the key the loop adds: every new key is one a filtered node adds, the balance never goes negative, nothing eligible remains while points do, points are paid as `getSpent()` counts them, and the loop ends |
| Session.PickedKeyIsNew | script.js:1184-1232 | a picked node is affordable and its key is new |
| Session.PickCostsNode | script.js:1229-1233 | with unique ids, a pick raises `getSpent()` by exactly the node's cost |
| Randomize.StoreHolding | script.js:1163 | the first tree holding a node with the id, or none when no tree does |
| Randomize.FilterMode | script.js:1155-1176 | a tree-and-role mode keeps exactly the nodes of the target tree whose type is the role or `shared` |
| Randomize.Filtered | script.js:1151-1176 | `filteredNodes` holds exactly the node objects the mode offers |
| Randomize.AvailableExact | script.js:1184-1211 | `availableSkills` holds exactly the eligible filtered nodes |
| Randomize.PickKeysExact | script.js:1229-1230 | the keys the loop can add are exactly the picked keys of the filtered nodes |
| Randomize.OneTreeFiltered | script.js:1151 | in a one-tree, one-node session the `all` mode offers that node |
| Randomize.TypeKeyLoopsForever | script.js:1185-1270 | as written, a free node stays available after it is picked, and the loop state repeats with one point left |
| Randomize.TreeKeyPicksOnce | script.js:1215-1270 | with the key the loop adds, a pick adds a new key, pays the node's cost, and the node is no longer available |
| Randomize.TreeKeyStops | script.js:1215-1270 | with the key the loop adds, the same free node is picked once and the loop stops |
| Stats.DieRank | script.js:176 | a die label's rank is one of 1, 2, 4, 6, 8 and 10 |
| Stats.RankToDie | script.js:177-181 | `rankToDie` gives `-` exactly for 0 and for ranks that are not one of the six dice, and otherwise the label of that rank |
| Stats.LabelRoundTrip | script.js:176-181 | a die label's rank maps back to the label |
| Stats.Digits | script.js:215 | `replace(/[^0-9]/g, '')` leaves only digits, never more characters than it was given |
| Stats.DigitsAppend | script.js:215 | the digits of a concatenation are the digits of each part, in order |
| Stats.DigitsKeep | script.js:215 | a string of digits only is kept whole |
| Stats.DigitsDrop | script.js:215 | a non-digit character is dropped |
| Stats.Rank | script.js:214-215 | a die label ranks as its table entry; any other value ranks as the number its digits spell, or 1 when that is 0 or there are none |
| Stats.NoDigitsRanksOne | script.js:215 | a value that is not a label and holds no digit ranks 1 |
| Stats.PlusLaws | script.js:186-231 | combining totals is commutative and associative, with the starting zero as unit |
| Stats.ApplyIsPlus | script.js:192-231 | one effect adds its own contribution to any running totals |
| Stats.ApplyAllIsPlus | script.js:192-231 | a node's effects add the same to any running totals |
| Stats.NodeOfKey | script.js:187-190 | a key's node, when there is one, is a node object |
| Stats.TotalRemove | script.js:186 | the total does not depend on the order the selection is visited in |
| Stats.VisitStep | script.js:186-231 | visiting one key moves its contribution from the unvisited keys into the running totals |
| Stats.ApplyEffects | script.js:192-231 | the inner loop adds a node's contribution to the running totals |
| Stats.ComputeCharStats | script.js:165-243 | the sheet is the base values plus the contributions of every selected key, with the best ranks turned into die labels |
| Stats.EmptySelection | script.js:169-242 | with nothing selected the sheet is the base pool, the base cap for both caps, no dice and no deltas |
| Stats.SelectAdds | script.js:186-231 | one more selected key adds exactly its contribution |
| Stats.StaleKeysIgnored | script.js:189-190 | keys whose id names no node leave the sheet as it is |
| Stats.CapEffects | script.js:203-209 | `cap` adds to both caps; `cap_attack` and `cap_defend` add to one each |
| Stats.PoolChoiceDefault | script.js:196-199 | a pool choice without a stored value adds `e.default \|\| 5`, so a declared default of 0 adds 5 |
| Stats.DiceTakeMax | script.js:210-217 | a `d4` and a `d6` leave `d6` in either order, on both slots, since a `dice` effect without a slot counts for both |
| Stats.DiceNeverLower | script.js:210-217 | a dice effect never lowers a best rank, and afterwards the best rank is at least the effect's rank on each slot it names |

## Left out

- The DOM is not modelled: node elements, class toggling, description boxes,
  tree titles and the alert, confirm and prompt dialogs. The prompts' answers
  are `Option` parameters (`None` for cancel), and the reset confirmation is a
  `bool`.
- Pan and zoom, the zoom slider and the credits animation are not modelled.
  They are floating-point view code.
- Connector geometry (`Math.sqrt`, `Math.atan2`) is not modelled. Only which
  connectors exist and their active and available flags are.
- `fetch`, `localStorage`, `JSON.parse`/`stringify`, `FileReader` and the
  export and import of characters are not modelled:
  - a stored record is an `Option<Record>` parameter;
  - a malformed record, on which `JSON.parse` throws, is not modelled.
- `Math.random` is not modelled. The picking loop chooses its index
  nondeterministically. `Randomize.PickStep` takes the index as a parameter.
- Asynchrony is not modelled: a second click while a prompt is open is not
  considered.
- The autosave at script.js:939 calls `persistCurrentProgress`, which is
  declared only inside `saveProgress`. Every committed or deselecting click
  therefore ends with a ReferenceError after its state change. The model
  writes no autosave at that point.
- The stats base values come from `renderCharStats` (script.js:127-141). That
  function reads the `_awakening` of the `armament-tree` node
  `armament_awakening`. Here the base values are parameters of
  `Stats.ComputeCharStats`.
- The tree's horizontal placement from `window.innerWidth` (script.js:69) is
  not modelled. The layout is per tree.
- `Layout.Layout` takes the depth map as a parameter. `Depths.ComputeDepths`
  states what that map holds.
- `minY` of the tier boundaries (script.js:519) is computed and never read, so
  it is not modelled.
- Numbers from records and fields are `int`. `NaN` from non-numeric strings
  and fractional costs or offsets are not modelled.
- Lower-casing covers the ASCII letters only.
- Ids are compared as sequences of characters. This matches JavaScript's
  code-unit order only for characters of the Basic Multilingual Plane.
- Plain objects used as maps (`byId`, `memo`, the group map, the saved per-id
  maps) are not modelled as objects. Ids that collide with
  `Object.prototype` names such as `constructor` behave like any other id in
  the model.
- `Skills.Normalise` does not model `requires` values that are neither a list
  nor a string, such as a number.
- The awakening answer is stored as given. The `Number(awak.pool || 0)`
  conversion at script.js:923 is not modelled.
- Depths.ComputeDepths: on cyclic requirements it states only that every node
  gets a depth and which depths are 0. Each value there is 1 plus the largest
  answer at the time it was memoised (`Depths.DepthResolver.Depth`). A
  requirement answered 0 on the path can be memoised later with another
  value, so the final map is not stated in terms of itself.
- Layout.Layout: it describes the corrected program. The facts use the
  intended tier base `Layout.TierBase`, so positions are given for trees where
  script.js:446 throws, such as the `[Orphan]` tree of the Findings.
  `Layout.OrphanThrows` states the throw, and `Layout.TierBaseRepairs` states
  that both bases agree wherever the code does not throw.
- Layout.Layout: it states the positions as the placement step applied over
  the turns in order. The placement lemmas describe that step for one turn.
  That a node's final position is the step at its only turn is not stated as
  a separate lemma.
- Layout.Placer: the placing step gives the origin for a turn that no node can
  take (`SlotOk` false). The pass never takes such a turn (`Layout.OrderValid`).
- Session.Session.RandomizeSkills: it describes the corrected program. The
  eligibility check asks for the key the loop adds (`TreeKey`). As written
  (script.js:1185, script.js:1246) it asks for `type::id`, and then the loop
  need not end (`Randomize.TypeKeyLoopsForever`). So "the loop ends" holds
  only for the corrected key.
- Session.Session.RandomizeSkills: the closing `updateRemainingUI` re-reads
  the total from the points field. That read is `UpdateRemaining`, and it is
  not repeated here.
- Session.Session.HandleClick: the `try`/`catch` around the prompts is not
  modelled. Nothing in the model throws there.

## Findings

| source | as written | input that shows it | evidently intended | confidence | as-written member | corrected member |
|---|---|---|---|---|---|---|
| script.js:446 | Tier anchoring of an untiered node that has requirements evaluates `Math.max(...parenttiers)`. The array is named `parentTiers`, so this throws a ReferenceError, which aborts `layoutAndRender` for that tree and the loading of the trees after it. | The one-node tree `[Orphan]`: id `orphan`, no tier, `requires: ["missing"]`. It has no placed parent, so it is anchored by tier. | The base is 200 times the highest tier among the node's requirements, with 0 for a missing one. | high, not executed | Layout.OrphanThrows | Layout.TierBaseRepairs |
| script.js:1185-1246 | The eligibility check asks whether `${skill.type}::${skill.id}` is selected. The loop adds `${treeId}::${skill.id}`, so a picked node stays eligible. A free node keeps being picked without changing anything, and the `while` loop never ends while points remain. A costly node can be paid for again and again. | One tree `armament-tree` holding one free `shared` node `haki_basics`, already picked, with 1 point left. | Ask about the key the loop adds. Each pick then adds a new key and the loop ends. | high, not executed | Randomize.TypeKeyLoopsForever | Session.PickLoop |
