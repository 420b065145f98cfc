/** The selection state machine: the selected keys, the Haki point budget, and
    what a click on a node does to them (script.js, `handleSkillClick`,
    `getSpent` and `resetAllSkills`). */
module Selection {
  import opened Text
  import opened Skills

  /** The initial pool and cap a player picks for `armament_awakening`. */
  datatype Awakening = Awakening(pool: int, cap: int)

  /** The session's mutable globals and node fields as one value: the selected
      keys, `totalPoints`, the character name field, and the `_poolChoiceValue`
      and `_awakening` fields of the node objects. */
  datatype State = State(
    selected: set<string>,
    totalPoints: int,
    charName: string,
    poolChoice: map<Ref, int>,
    awakening: map<Ref, Awakening>)

  /** Node data every proof about keys relies on: tree ids without ':', no two
      trees with one id, no two nodes of a tree with one id. */
  predicate WellFormed(stores: seq<Store>) {
    (forall t :: 0 <= t < |stores| ==> Plain(stores[t].treeId))
    && (forall t, u :: 0 <= t < u < |stores| ==> stores[t].treeId != stores[u].treeId)
    && (forall t, i, j :: 0 <= t < |stores| && 0 <= i < j < |stores[t].data| ==>
          stores[t].data[i].id != stores[t].data[j].id)
  }

  // -------------------------------------------------------------- spending

  /** What the selected nodes of one tree cost. */
  function SpentIn(treeId: string, data: seq<Skill>, sel: set<string>): int {
    if data == [] then 0
    else
      var s := data[|data| - 1];
      SpentIn(treeId, data[..|data| - 1], sel) + (if Key(treeId, s.id) in sel then Cost(s) else 0)
  }

  /** `getSpent()`: the cost of every node, in every tree, whose key is selected. */
  function Spent(stores: seq<Store>, sel: set<string>): int {
    if stores == [] then 0
    else Spent(stores[..|stores| - 1], sel) + SpentIn(stores[|stores| - 1].treeId, stores[|stores| - 1].data, sel)
  }

  /** What one key adds to `getSpent()`: the costs of the nodes it names. */
  function KeyCostIn(treeId: string, data: seq<Skill>, k: string): int {
    if data == [] then 0
    else
      var s := data[|data| - 1];
      KeyCostIn(treeId, data[..|data| - 1], k) + (if Key(treeId, s.id) == k then Cost(s) else 0)
  }

  function KeyCost(stores: seq<Store>, k: string): int {
    if stores == [] then 0
    else KeyCost(stores[..|stores| - 1], k) + KeyCostIn(stores[|stores| - 1].treeId, stores[|stores| - 1].data, k)
  }

  lemma {:induction false} SpentInAdd(treeId: string, data: seq<Skill>, sel: set<string>, k: string)
    requires k !in sel
    ensures SpentIn(treeId, data, sel + {k}) == SpentIn(treeId, data, sel) + KeyCostIn(treeId, data, k)
  {
    if data != [] {
      SpentInAdd(treeId, data[..|data| - 1], sel, k);
    }
  }

  /** Selecting key `k` raises `getSpent()` by what `k` costs. */
  lemma {:induction false} SpentAdd(stores: seq<Store>, sel: set<string>, k: string)
    requires k !in sel
    ensures Spent(stores, sel + {k}) == Spent(stores, sel) + KeyCost(stores, k)
  {
    if stores != [] {
      SpentAdd(stores[..|stores| - 1], sel, k);
      SpentInAdd(stores[|stores| - 1].treeId, stores[|stores| - 1].data, sel, k);
    }
  }

  /** Deselecting key `k` lowers `getSpent()` by what `k` costs. */
  lemma SpentRemove(stores: seq<Store>, sel: set<string>, k: string)
    requires k in sel
    ensures Spent(stores, sel - {k}) == Spent(stores, sel) - KeyCost(stores, k)
  {
    SpentAdd(stores, sel - {k}, k);
    assert sel - {k} + {k} == sel;
  }

  lemma {:induction false} KeyCostInAbsent(treeId: string, data: seq<Skill>, k: string)
    requires forall i :: 0 <= i < |data| ==> Key(treeId, data[i].id) != k
    ensures KeyCostIn(treeId, data, k) == 0
  {
    if data != [] {
      KeyCostInAbsent(treeId, data[..|data| - 1], k);
    }
  }

  lemma {:induction false} KeyCostInUnique(treeId: string, data: seq<Skill>, i: nat)
    requires i < |data|
    requires forall a, b :: 0 <= a < b < |data| ==> data[a].id != data[b].id
    ensures KeyCostIn(treeId, data, Key(treeId, data[i].id)) == Cost(data[i])
  {
    var init := data[..|data| - 1];
    var k := Key(treeId, data[i].id);
    if i == |data| - 1 {
      forall j | 0 <= j < |init|
        ensures Key(treeId, init[j].id) != k
      {
        if Key(treeId, init[j].id) == k {
          KeyCancel(treeId, init[j].id, data[i].id);
        }
      }
      KeyCostInAbsent(treeId, init, k);
    } else {
      KeyCostInUnique(treeId, init, i);
      if Key(treeId, data[|data| - 1].id) == k {
        KeyCancel(treeId, data[|data| - 1].id, data[i].id);
      }
    }
  }

  lemma {:induction false} KeyCostOtherTrees(stores: seq<Store>, treeId: string, id: string)
    requires forall t :: 0 <= t < |stores| ==> Plain(stores[t].treeId) && stores[t].treeId != treeId
    requires Plain(treeId)
    ensures KeyCost(stores, Key(treeId, id)) == 0
  {
    if stores != [] {
      var last := stores[|stores| - 1];
      KeyCostOtherTrees(stores[..|stores| - 1], treeId, id);
      forall i | 0 <= i < |last.data|
        ensures Key(last.treeId, last.data[i].id) != Key(treeId, id)
      {
        if Key(last.treeId, last.data[i].id) == Key(treeId, id) {
          KeyInjective(last.treeId, last.data[i].id, treeId, id);
        }
      }
      KeyCostInAbsent(last.treeId, last.data, Key(treeId, id));
    }
  }

  /** In well-formed trees a node's key costs exactly that node's cost. */
  lemma {:induction false} KeyCostOfNode(stores: seq<Store>, r: Ref)
    requires WellFormed(stores) && ValidRef(stores, r)
    ensures KeyCost(stores, Key(stores[r.tree].treeId, NodeAt(stores, r).id)) == Cost(NodeAt(stores, r))
  {
    var init := stores[..|stores| - 1];
    var last := stores[|stores| - 1];
    var k := Key(stores[r.tree].treeId, NodeAt(stores, r).id);
    if r.tree == |stores| - 1 {
      KeyCostOtherTrees(init, last.treeId, NodeAt(stores, r).id);
      KeyCostInUnique(last.treeId, last.data, r.index);
    } else {
      assert WellFormed(init);
      KeyCostOfNode(init, r);
      forall i | 0 <= i < |last.data|
        ensures Key(last.treeId, last.data[i].id) != k
      {
        if Key(last.treeId, last.data[i].id) == k {
          KeyInjective(last.treeId, last.data[i].id, stores[r.tree].treeId, NodeAt(stores, r).id);
        }
      }
      KeyCostInAbsent(last.treeId, last.data, k);
    }
  }

  // ------------------------------------------------------------- deselect

  const MsgDependents: string := "You must deselect dependent skills first."
  const MsgOneOf: string := "This skill requires one of its prerequisites to be selected."
  const MsgMissing: string := "Missing required skills."
  const MsgBudget: string := "Not enough Haki points."

  /** Whether dependent `d` stops node `id` of tree `treeId` from being
      deselected: `d` requires `id` and is selected, and either its operator is
      not `or` or none of its other requirements is selected. */
  predicate BlocksDeselect(d: Skill, treeId: string, sel: set<string>, id: string) {
    id in d.reqs && Key(treeId, d.id) in sel &&
    (Operator(d) != "or" ||
     !exists k :: 0 <= k < |d.reqs| && d.reqs[k] != id && Key(treeId, d.reqs[k]) in sel)
  }

  predicate Blocked(data: seq<Skill>, treeId: string, sel: set<string>, id: string) {
    exists j :: 0 <= j < |data| && BlocksDeselect(data[j], treeId, sel, id)
  }

  /** The nodes of the first tree with id `treeId`, where dependents are sought. */
  function TreeData(stores: seq<Store>, treeId: string): seq<Skill> {
    match FirstStore(stores, treeId)
    case Some(t) => stores[t].data
    case None => []
  }

  // ---------------------------------------------------------------- click

  datatype Outcome = Rejected(reason: string) | Cancelled | Selected | Deselected

  datatype Step = Step(state: State, outcome: Outcome)

  /** A click on node `r`. `poolAnswer` and `awakAnswer` are what the pool
      choice and awakening prompts return, `None` for cancel; they are only
      read when the node asks for them. */
  function Click(stores: seq<Store>, st: State, r: Ref, poolAnswer: Option<int>, awakAnswer: Option<Awakening>): Step
    requires ValidRef(stores, r)
  {
    var skill := NodeAt(stores, r);
    var treeId := stores[r.tree].treeId;
    var key := Key(treeId, skill.id);
    var remaining := st.totalPoints - Spent(stores, st.selected);
    if key in st.selected then
      if Blocked(TreeData(stores, treeId), treeId, st.selected, skill.id) then Step(st, Rejected(MsgDependents))
      else
        Step(st.(selected := st.selected - {key},
                 awakening := if skill.id == AwakeningId then st.awakening - {r} else st.awakening),
             Deselected)
    else if !PrereqMet(skill, treeId, st.selected) then
      Step(st, Rejected(if SelectSemantics(skill) == AnyOf then MsgOneOf else MsgMissing))
    else if remaining < Cost(skill) then Step(st, Rejected(MsgBudget))
    else if HasPoolChoice(skill) && poolAnswer.None? then Step(st, Cancelled)
    else
      var pc := if HasPoolChoice(skill) then st.poolChoice[r := poolAnswer.value] else st.poolChoice;
      if skill.id != AwakeningId then Step(st.(selected := st.selected + {key}, poolChoice := pc), Selected)
      else if awakAnswer.None? then Step(st.(poolChoice := pc), Cancelled)
      else Step(st.(selected := st.selected + {key}, poolChoice := pc,
                    awakening := st.awakening[r := awakAnswer.value]), Selected)
  }

  /** The budget rule: a select the remaining points cannot pay for is refused
      and changes nothing. */
  lemma OverBudgetRejected(stores: seq<Store>, st: State, r: Ref, pa: Option<int>, aa: Option<Awakening>)
    requires ValidRef(stores, r)
    requires Key(stores[r.tree].treeId, NodeAt(stores, r).id) !in st.selected
    requires PrereqMet(NodeAt(stores, r), stores[r.tree].treeId, st.selected)
    requires st.totalPoints - Spent(stores, st.selected) < Cost(NodeAt(stores, r))
    ensures Click(stores, st, r, pa, aa) == Step(st, Rejected(MsgBudget))
  {
  }

  /** A refused click changes nothing. */
  lemma RejectedChangesNothing(stores: seq<Store>, st: State, r: Ref, pa: Option<int>, aa: Option<Awakening>)
    requires ValidRef(stores, r) && Click(stores, st, r, pa, aa).outcome.Rejected?
    ensures Click(stores, st, r, pa, aa).state == st
  {
  }

  /** A committed select adds exactly the node's key, after its prerequisites
      held and the budget covered it; in well-formed trees `getSpent()` grows by
      exactly the node's cost and stays within `totalPoints`. */
  lemma SelectCommits(stores: seq<Store>, st: State, r: Ref, pa: Option<int>, aa: Option<Awakening>)
    requires ValidRef(stores, r) && Click(stores, st, r, pa, aa).outcome == Selected
    ensures var key := Key(stores[r.tree].treeId, NodeAt(stores, r).id);
      var st' := Click(stores, st, r, pa, aa).state;
      key !in st.selected && st'.selected == st.selected + {key} &&
      PrereqMet(NodeAt(stores, r), stores[r.tree].treeId, st.selected) &&
      st.totalPoints - Spent(stores, st.selected) >= Cost(NodeAt(stores, r)) &&
      Spent(stores, st'.selected) == Spent(stores, st.selected) + KeyCost(stores, key) &&
      (WellFormed(stores) ==>
        Spent(stores, st'.selected) == Spent(stores, st.selected) + Cost(NodeAt(stores, r)) &&
        Spent(stores, st'.selected) <= st'.totalPoints)
  {
    var key := Key(stores[r.tree].treeId, NodeAt(stores, r).id);
    SpentAdd(stores, st.selected, key);
    if WellFormed(stores) {
      KeyCostOfNode(stores, r);
    }
  }

  /** Cancelling a prompt takes the just-added key out again: the selection is
      as before, no awakening is stored, and a pool choice is stored only when
      its own prompt was answered before the awakening prompt was cancelled. */
  lemma CancelRollsBack(stores: seq<Store>, st: State, r: Ref, pa: Option<int>, aa: Option<Awakening>)
    requires ValidRef(stores, r) && Click(stores, st, r, pa, aa).outcome == Cancelled
    ensures var st' := Click(stores, st, r, pa, aa).state;
      st'.selected == st.selected && st'.awakening == st.awakening &&
      st'.totalPoints == st.totalPoints && st'.charName == st.charName &&
      (pa.None? ==> st'.poolChoice == st.poolChoice) &&
      (pa.Some? ==> st'.poolChoice == (if HasPoolChoice(NodeAt(stores, r)) then st.poolChoice[r := pa.value] else st.poolChoice))
    ensures (HasPoolChoice(NodeAt(stores, r)) && pa.None?) || (NodeAt(stores, r).id == AwakeningId && aa.None?)
  {
  }

  /** Deselect: refused exactly when a selected dependent blocks it; otherwise
      it removes exactly the node's key, drops `_awakening` only for
      `armament_awakening`, and keeps every pool choice. */
  lemma DeselectRule(stores: seq<Store>, st: State, r: Ref, pa: Option<int>, aa: Option<Awakening>)
    requires ValidRef(stores, r)
    requires Key(stores[r.tree].treeId, NodeAt(stores, r).id) in st.selected
    ensures var treeId := stores[r.tree].treeId;
      var id := NodeAt(stores, r).id;
      var step := Click(stores, st, r, pa, aa);
      (step.outcome.Rejected? <==> Blocked(TreeData(stores, treeId), treeId, st.selected, id)) &&
      (step.outcome.Rejected? ==> step.outcome.reason == MsgDependents && step.state == st) &&
      (!step.outcome.Rejected? ==>
        step.outcome == Deselected &&
        step.state.selected == st.selected - {Key(treeId, id)} &&
        step.state.poolChoice == st.poolChoice &&
        (id == AwakeningId ==> r !in step.state.awakening) &&
        (forall q :: q != r && q in st.awakening ==> q in step.state.awakening && step.state.awakening[q] == st.awakening[q]) &&
        (id != AwakeningId ==> step.state.awakening == st.awakening))
  {
  }

  /** A selected `or` dependent whose other requirement is still selected does
      not block; any other selected dependent of the node does. */
  lemma DeselectOperators(d: Skill, treeId: string, sel: set<string>, id: string)
    requires id in d.reqs && Key(treeId, d.id) in sel
    ensures Operator(d) != "or" ==> BlocksDeselect(d, treeId, sel, id)
    ensures Operator(d) == "or" ==>
      (BlocksDeselect(d, treeId, sel, id) <==> forall rid :: rid in d.reqs && rid != id ==> Key(treeId, rid) !in sel)
  {
  }

  /** Every selected node has its prerequisites, as the select check demands. */
  predicate Consistent(stores: seq<Store>, sel: set<string>) {
    forall t, i :: 0 <= t < |stores| && 0 <= i < |stores[t].data| && Key(stores[t].treeId, stores[t].data[i].id) in sel ==>
      PrereqMet(stores[t].data[i], stores[t].treeId, sel)
  }

  /** Clicks keep the selection consistent in well-formed trees: selecting
      only ever adds a node whose prerequisites hold, and deselecting is
      refused while a dependent still needs the node. */
  lemma ClickKeepsConsistent(stores: seq<Store>, st: State, r: Ref, pa: Option<int>, aa: Option<Awakening>)
    requires WellFormed(stores) && ValidRef(stores, r) && Consistent(stores, st.selected)
    ensures Consistent(stores, Click(stores, st, r, pa, aa).state.selected)
  {
    var step := Click(stores, st, r, pa, aa);
    var sel' := step.state.selected;
    var treeId := stores[r.tree].treeId;
    var id := NodeAt(stores, r).id;
    var key := Key(treeId, id);
    if step.outcome == Selected {
      forall t, i | 0 <= t < |stores| && 0 <= i < |stores[t].data| && Key(stores[t].treeId, stores[t].data[i].id) in sel'
        ensures PrereqMet(stores[t].data[i], stores[t].treeId, sel')
      {
        if Key(stores[t].treeId, stores[t].data[i].id) == key {
          KeyInjective(stores[t].treeId, stores[t].data[i].id, treeId, id);
          assert t == r.tree && i == r.index;
        }
        PrereqMonotone(stores[t].data[i], stores[t].treeId, st.selected, sel');
      }
    } else if step.outcome == Deselected {
      assert FirstStore(stores, treeId) == Some(r.tree);
      forall t, i | 0 <= t < |stores| && 0 <= i < |stores[t].data| && Key(stores[t].treeId, stores[t].data[i].id) in sel'
        ensures PrereqMet(stores[t].data[i], stores[t].treeId, sel')
      {
        DeselectKeeps(stores, st.selected, r, t, i);
      }
    }
  }

  /** Removing an unblocked node's key keeps the prerequisites of every other
      selected node. */
  lemma DeselectKeeps(stores: seq<Store>, sel: set<string>, r: Ref, t: nat, i: nat)
    requires WellFormed(stores) && ValidRef(stores, r) && Consistent(stores, sel)
    requires t < |stores| && i < |stores[t].data|
    requires var treeId := stores[r.tree].treeId;
      !Blocked(stores[r.tree].data, treeId, sel, NodeAt(stores, r).id)
    requires var key := Key(stores[r.tree].treeId, NodeAt(stores, r).id);
      Key(stores[t].treeId, stores[t].data[i].id) in sel - {key}
    ensures PrereqMet(stores[t].data[i], stores[t].treeId, sel - {Key(stores[r.tree].treeId, NodeAt(stores, r).id)})
  {
    var treeId := stores[r.tree].treeId;
    var id := NodeAt(stores, r).id;
    var key := Key(treeId, id);
    var d := stores[t].data[i];
    var sel' := sel - {key};
    assert PrereqMet(d, stores[t].treeId, sel);
    if t != r.tree {
      forall k | 0 <= k < |d.reqs|
        ensures (Key(stores[t].treeId, d.reqs[k]) in sel) == (Key(stores[t].treeId, d.reqs[k]) in sel')
      {
        if Key(stores[t].treeId, d.reqs[k]) == key {
          KeyInjective(stores[t].treeId, d.reqs[k], treeId, id);
        }
      }
      PrereqFrame(d, stores[t].treeId, sel, sel');
    } else if id !in d.reqs {
      forall k | 0 <= k < |d.reqs|
        ensures (Key(treeId, d.reqs[k]) in sel) == (Key(treeId, d.reqs[k]) in sel')
      {
        if Key(treeId, d.reqs[k]) == key {
          KeyCancel(treeId, d.reqs[k], id);
        }
      }
      PrereqFrame(d, treeId, sel, sel');
    } else {
      assert !BlocksDeselect(d, treeId, sel, id);
      var k :| 0 <= k < |d.reqs| && d.reqs[k] != id && Key(treeId, d.reqs[k]) in sel;
      if Key(treeId, d.reqs[k]) == key {
        KeyCancel(treeId, d.reqs[k], id);
      }
      assert InTree(treeId, sel')(d.reqs[k]);
    }
  }

  // ---------------------------------------------------------------- reset

  /** `resetAllSkills()` once confirmed: nothing selected, no pool choices on
      any node, no awakening on an `armament_awakening` node, an empty name. */
  function Reset(stores: seq<Store>, st: State): State {
    st.(selected := {},
        poolChoice := map r | r in st.poolChoice && !ValidRef(stores, r) :: st.poolChoice[r],
        awakening := map r | r in st.awakening && !(ValidRef(stores, r) && NodeAt(stores, r).id == AwakeningId) :: st.awakening[r],
        charName := "")
  }

  /** After a reset nothing is spent, no node keeps a pool choice, and only
      nodes other than `armament_awakening` keep an awakening value. */
  lemma ResetClears(stores: seq<Store>, st: State)
    ensures var st' := Reset(stores, st);
      Spent(stores, st'.selected) == 0 && st'.totalPoints == st.totalPoints &&
      (forall r :: ValidRef(stores, r) ==> r !in st'.poolChoice) &&
      (forall r :: ValidRef(stores, r) && NodeAt(stores, r).id == AwakeningId ==> r !in st'.awakening) &&
      (forall r :: r in st.awakening && ValidRef(stores, r) && NodeAt(stores, r).id != AwakeningId ==>
        r in st'.awakening && st'.awakening[r] == st.awakening[r])
  {
    SpentNone(stores);
  }

  lemma {:induction false} SpentNone(stores: seq<Store>)
    ensures Spent(stores, {}) == 0
  {
    if stores != [] {
      SpentNone(stores[..|stores| - 1]);
      SpentInNone(stores[|stores| - 1].treeId, stores[|stores| - 1].data);
    }
  }

  lemma {:induction false} SpentInNone(treeId: string, data: seq<Skill>)
    ensures SpentIn(treeId, data, {}) == 0
  {
    if data != [] {
      SpentInNone(treeId, data[..|data| - 1]);
    }
  }

  /** `Number(totalInput?.value || 10)`. The field's value is a string, so
      only an empty field (or no field) is falsy and means 10; `None` stands
      for that, and `Some(v)` for a field holding the number `v`, 0 included. */
  function TotalFromInput(field: Option<int>): (r: int)
    ensures field.Some? ==> r == field.value
    ensures field.None? ==> r == 10
  {
    if field.None? then 10 else field.value
  }

  /** The remaining points the page shows: never below 0. */
  function ShownRemaining(stores: seq<Store>, st: State): (r: int)
    ensures r >= 0
    ensures r == 0 || r == st.totalPoints - Spent(stores, st.selected)
    ensures st.totalPoints - Spent(stores, st.selected) >= 0 ==> r == st.totalPoints - Spent(stores, st.selected)
  {
    var remaining := st.totalPoints - Spent(stores, st.selected);
    if remaining < 0 then 0 else remaining
  }
}
