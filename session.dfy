/** The page session (script.js): the globals `selected` and `totalPoints`,
    the character name field, and the `_poolChoiceValue` and `_awakening`
    fields that the handlers write on node objects, together with the
    handlers that change them. Each handler is proved against the value-level
    transition of the `Selection` and `Persistence` modules. */
module Session {
  import opened Text
  import opened Skills
  import opened Selection
  import opened Persistence
  import opened Randomize
  import Stats

  /** Node `r` comes before position `(t, i)` of a pass over every store and
      every node of it. */
  predicate Before(r: Ref, t: nat, i: nat) {
    r.tree < t || (r.tree == t && r.index < i)
  }

  /** Part way through the restore pass: the nodes before `(t, i)` whose id
      `saved` holds carry the saved value, every other entry is as in `m0`. */
  ghost predicate RestoredUpTo<V>(stores: seq<Store>, m0: map<Ref, V>, saved: map<string, V>, m: map<Ref, V>, t: nat, i: nat) {
    forall r ::
      if ValidRef(stores, r) && Before(r, t, i) && NodeAt(stores, r).id in saved
      then r in m && m[r] == saved[NodeAt(stores, r).id]
      else (r in m <==> r in m0) && (r in m0 ==> m[r] == m0[r])
  }

  /** Part way through the reset pass: the nodes before `(t, i)` (only the
      `armament_awakening` ones when `onlyAwakening`) have lost their entry,
      every other entry is as in `m0`. */
  ghost predicate ClearedUpTo<V>(stores: seq<Store>, m0: map<Ref, V>, m: map<Ref, V>, t: nat, i: nat, onlyAwakening: bool) {
    forall q ::
      (q in m <==> q in m0 && !(ValidRef(stores, q) && Before(q, t, i) && (!onlyAwakening || NodeAt(stores, q).id == AwakeningId))) &&
      (q in m ==> m[q] == m0[q])
  }

  /** The reset pass at node `(t, i)`. */
  lemma ClearedStep<V>(stores: seq<Store>, m0: map<Ref, V>, m: map<Ref, V>, t: nat, i: nat, onlyAwakening: bool)
    requires t < |stores| && i < |stores[t].data|
    requires ClearedUpTo(stores, m0, m, t, i, onlyAwakening)
    ensures var hit := !onlyAwakening || stores[t].data[i].id == AwakeningId;
      ClearedUpTo(stores, m0, if hit then m - {Ref(t, i)} else m, t, i + 1, onlyAwakening)
  {
  }

  /** The reset pass moves on from the last node of store `t` to the next store. */
  lemma ClearedTree<V>(stores: seq<Store>, m0: map<Ref, V>, m: map<Ref, V>, t: nat, onlyAwakening: bool)
    requires t < |stores|
    requires ClearedUpTo(stores, m0, m, t, |stores[t].data|, onlyAwakening)
    ensures ClearedUpTo(stores, m0, m, t + 1, 0, onlyAwakening)
  {
  }

  /** The restore pass at node `(t, i)`. */
  lemma RestoredStep<V>(stores: seq<Store>, m0: map<Ref, V>, saved: map<string, V>, m: map<Ref, V>, t: nat, i: nat)
    requires t < |stores| && i < |stores[t].data|
    requires RestoredUpTo(stores, m0, saved, m, t, i)
    ensures var id := stores[t].data[i].id;
      RestoredUpTo(stores, m0, saved, if id in saved then m[Ref(t, i) := saved[id]] else m, t, i + 1)
  {
  }

  /** The restore pass moves on from the last node of store `t` to the next store. */
  lemma RestoredTree<V>(stores: seq<Store>, m0: map<Ref, V>, saved: map<string, V>, m: map<Ref, V>, t: nat)
    requires t < |stores|
    requires RestoredUpTo(stores, m0, saved, m, t, |stores[t].data|)
    ensures RestoredUpTo(stores, m0, saved, m, t + 1, 0)
  {
  }

  /** A reset pass that has visited every node leaves what `Reset` leaves. */
  lemma ClearedAll<V>(stores: seq<Store>, m0: map<Ref, V>, m: map<Ref, V>, onlyAwakening: bool)
    requires ClearedUpTo(stores, m0, m, |stores|, 0, onlyAwakening)
    ensures m == map q | q in m0 && !(ValidRef(stores, q) && (!onlyAwakening || NodeAt(stores, q).id == AwakeningId)) :: m0[q]
  {
  }

  /** A restore pass that has visited every node gives `RestoreOver`. */
  lemma RestoredAll<V>(stores: seq<Store>, m0: map<Ref, V>, saved: map<string, V>, m: map<Ref, V>)
    requires RestoredUpTo(stores, m0, saved, m, |stores|, 0)
    ensures m == RestoreOver(stores, m0, saved, AllRefs(stores))
  {
    var refs := AllRefs(stores);
    var back := RestoreOver(stores, m0, saved, refs);
    forall r
      ensures (r in m <==> r in back) && (r in m ==> m[r] == back[r])
    {
      RestoreOverSpec(stores, m0, saved, refs, r);
    }
  }

  /** The `dependents` loop of a deselect: whether some node of the tree
      blocks removing node `id`. */
  method DependentsBlock(data: seq<Skill>, treeId: string, sel: set<string>, id: string) returns (blocked: bool)
    ensures blocked == Blocked(data, treeId, sel, id)
  {
    var j := 0;
    while j < |data|
      invariant 0 <= j <= |data|
      invariant forall k :: 0 <= k < j ==> !BlocksDeselect(data[k], treeId, sel, id)
    {
      var d := data[j];
      if id in d.reqs && Key(treeId, d.id) in sel {
        if Operator(d) == "or" {
          var otherSelected := exists k :: 0 <= k < |d.reqs| && d.reqs[k] != id && Key(treeId, d.reqs[k]) in sel;
          if !otherSelected {
            return true;
          }
        } else {
          return true;
        }
      }
      j := j + 1;
    }
    return false;
  }

  /** What `randomizeSkills` ends with. */
  datatype RandomOutcome =
    | NoPoints                  // "No Haki Points remaining!"
    | NoneAvailable             // "No available skills can be selected ..."
    | Picked(remaining: int)    // the points the closing message reports

  class Session {
    /** `window.__treeDataStore`, loaded once. */
    const stores: seq<Store>
    var selected: set<string>
    var totalPoints: int
    var charName: string
    var poolChoice: map<Ref, int>
    var awakening: map<Ref, Awakening>

    /** Page start: nothing selected, the total from the points field. */
    constructor (stores: seq<Store>, field: Option<int>)
      ensures this.stores == stores
      ensures Snapshot() == State({}, TotalFromInput(field), "", map[], map[])
    {
      this.stores := stores;
      selected := {};
      totalPoints := TotalFromInput(field);
      charName := "";
      poolChoice := map[];
      awakening := map[];
    }

    /** The session as a value. */
    function Snapshot(): State
      reads this
    {
      State(selected, totalPoints, charName, poolChoice, awakening)
    }

    /** `getSpent()` */
    method GetSpent() returns (sum: int)
      ensures sum == Spent(stores, selected)
    {
      sum := 0;
      var t := 0;
      while t < |stores|
        invariant 0 <= t <= |stores|
        invariant sum == Spent(stores[..t], selected)
      {
        var treeId := stores[t].treeId;
        var data := stores[t].data;
        var i := 0;
        while i < |data|
          invariant 0 <= i <= |data|
          invariant sum == Spent(stores[..t], selected) + SpentIn(treeId, data[..i], selected)
        {
          assert data[..i + 1][..i] == data[..i];
          if Key(treeId, data[i].id) in selected {
            sum := sum + Cost(data[i]);
          }
          i := i + 1;
        }
        assert data[..i] == data;
        assert stores[..t + 1][..t] == stores[..t];
        t := t + 1;
      }
      assert stores[..t] == stores;
    }

    /** `updateRemainingUI()`: the total is read again from the points field,
        and the page shows what is left, never below 0. */
    method UpdateRemaining(field: Option<int>) returns (shown: int)
      modifies this
      ensures Snapshot() == old(Snapshot()).(totalPoints := TotalFromInput(field))
      ensures shown == ShownRemaining(stores, Snapshot())
    {
      totalPoints := TotalFromInput(field);
      var spent := GetSpent();
      var remaining := totalPoints - spent;
      shown := if remaining < 0 then 0 else remaining;
    }

    /** `handleSkillClick` on node `r`, with the answers of the prompts it
        may show (`None` for cancel). */
    method HandleClick(r: Ref, poolAnswer: Option<int>, awakAnswer: Option<Awakening>) returns (outcome: Outcome)
      requires ValidRef(stores, r)
      modifies this
      ensures Step(Snapshot(), outcome) == Click(stores, old(Snapshot()), r, poolAnswer, awakAnswer)
    {
      var skill := NodeAt(stores, r);
      var treeId := stores[r.tree].treeId;
      var key := Key(treeId, skill.id);
      var cost := Cost(skill);
      var spent := GetSpent();
      var remaining := totalPoints - spent;

      if key in selected {
        var blocked := DependentsBlock(TreeData(stores, treeId), treeId, selected, skill.id);
        if blocked {
          return Rejected(MsgDependents);
        }
        selected := selected - {key};
        if skill.id == AwakeningId {
          awakening := awakening - {r};
        }
        return Deselected;
      }

      if !PrereqMet(skill, treeId, selected) {
        return Rejected(if SelectSemantics(skill) == AnyOf then MsgOneOf else MsgMissing);
      }
      if remaining < cost {
        return Rejected(MsgBudget);
      }
      ghost var before := selected;
      selected := selected + {key};
      assert selected - {key} == before;
      if HasPoolChoice(skill) {
        if poolAnswer.None? {
          selected := selected - {key};
          return Cancelled;
        }
        poolChoice := poolChoice[r := poolAnswer.value];
      }
      if skill.id == AwakeningId {
        if awakAnswer.None? {
          selected := selected - {key};
          return Cancelled;
        }
        awakening := awakening[r := awakAnswer.value];
      }
      return Selected;
    }

    /** `resetAllSkills()`, after the confirmation dialog answered `confirmed`. */
    method ResetAll(confirmed: bool)
      modifies this
      ensures Snapshot() == if confirmed then Reset(stores, old(Snapshot())) else old(Snapshot())
    {
      if !confirmed {
        return;
      }
      selected := {};
      ghost var pc0 := poolChoice;
      ghost var aw0 := awakening;
      for t := 0 to |stores|
        invariant selected == {} && totalPoints == old(totalPoints) && charName == old(charName)
        invariant ClearedUpTo(stores, pc0, poolChoice, t, 0, false)
        invariant ClearedUpTo(stores, aw0, awakening, t, 0, true)
      {
        ClearTree(t, pc0, aw0);
      }
      charName := "";
      ClearedAll(stores, pc0, poolChoice, false);
      ClearedAll(stores, aw0, awakening, true);
    }

    /** The reset pass over the nodes of store `t`. */
    method ClearTree(t: nat, ghost pc0: map<Ref, int>, ghost aw0: map<Ref, Awakening>)
      requires t < |stores|
      requires ClearedUpTo(stores, pc0, poolChoice, t, 0, false)
      requires ClearedUpTo(stores, aw0, awakening, t, 0, true)
      modifies this
      ensures selected == old(selected) && totalPoints == old(totalPoints) && charName == old(charName)
      ensures ClearedUpTo(stores, pc0, poolChoice, t + 1, 0, false)
      ensures ClearedUpTo(stores, aw0, awakening, t + 1, 0, true)
    {
      var data := stores[t].data;
      for i := 0 to |data|
        invariant selected == old(selected) && totalPoints == old(totalPoints) && charName == old(charName)
        invariant ClearedUpTo(stores, pc0, poolChoice, t, i, false)
        invariant ClearedUpTo(stores, aw0, awakening, t, i, true)
      {
        ClearedStep(stores, pc0, poolChoice, t, i, false);
        ClearedStep(stores, aw0, awakening, t, i, true);
        poolChoice := poolChoice - {Ref(t, i)};
        if data[i].id == AwakeningId {
          awakening := awakening - {Ref(t, i)};
        }
      }
      ClearedTree(stores, pc0, poolChoice, t, false);
      ClearedTree(stores, aw0, awakening, t, true);
    }

    /** The restore pass shared by page start, `saveProgress` (which restores
        the automatic slot first) and `loadProgress`. */
    method ApplyRecord(rec: Record)
      modifies this
      ensures Snapshot() == Restore(stores, old(Snapshot()), rec)
    {
      selected := rec.selected.GetOr({});
      totalPoints := NumOr(rec.totalPoints, totalPoints);
      charName := OrElse(rec.charName, charName);
      var pcs := rec.poolChoices.GetOr(map[]);
      var avs := rec.awakeningValues.GetOr(map[]);
      ghost var pc0 := poolChoice;
      ghost var aw0 := awakening;
      for t := 0 to |stores|
        invariant selected == rec.selected.GetOr({})
        invariant totalPoints == NumOr(rec.totalPoints, old(totalPoints))
        invariant charName == OrElse(rec.charName, old(charName))
        invariant RestoredUpTo(stores, pc0, pcs, poolChoice, t, 0)
        invariant RestoredUpTo(stores, aw0, avs, awakening, t, 0)
      {
        RestoreTree(t, pcs, avs, pc0, aw0);
      }
      RestoredAll(stores, pc0, pcs, poolChoice);
      RestoredAll(stores, aw0, avs, awakening);
    }

    /** The restore pass over the nodes of store `t`. */
    method RestoreTree(t: nat, pcs: map<string, int>, avs: map<string, Awakening>,
                       ghost pc0: map<Ref, int>, ghost aw0: map<Ref, Awakening>)
      requires t < |stores|
      requires RestoredUpTo(stores, pc0, pcs, poolChoice, t, 0)
      requires RestoredUpTo(stores, aw0, avs, awakening, t, 0)
      modifies this
      ensures selected == old(selected) && totalPoints == old(totalPoints) && charName == old(charName)
      ensures RestoredUpTo(stores, pc0, pcs, poolChoice, t + 1, 0)
      ensures RestoredUpTo(stores, aw0, avs, awakening, t + 1, 0)
    {
      var data := stores[t].data;
      for i := 0 to |data|
        invariant selected == old(selected) && totalPoints == old(totalPoints) && charName == old(charName)
        invariant RestoredUpTo(stores, pc0, pcs, poolChoice, t, i)
        invariant RestoredUpTo(stores, aw0, avs, awakening, t, i)
      {
        RestoredStep(stores, pc0, pcs, poolChoice, t, i);
        RestoredStep(stores, aw0, avs, awakening, t, i);
        var id := data[i].id;
        if id in pcs {
          poolChoice := poolChoice[Ref(t, i) := pcs[id]];
        }
        if id in avs {
          awakening := awakening[Ref(t, i) := avs[id]];
        }
      }
      RestoredTree(stores, pc0, pcs, poolChoice, t);
      RestoredTree(stores, aw0, avs, awakening, t);
    }

    /** The record's per-id maps: a pass over every node, a later node with
        the same id overwriting an earlier one. */
    method CollectById<V>(m: map<Ref, V>) returns (saved: map<string, V>)
      ensures saved == ById(stores, m, AllRefs(stores))
    {
      saved := map[];
      ghost var visited: seq<Ref> := [];
      var t := 0;
      while t < |stores|
        invariant 0 <= t <= |stores|
        invariant visited == AllRefs(stores[..t])
        invariant forall q :: q in visited ==> ValidRef(stores, q)
        invariant saved == ById(stores, m, visited)
      {
        var data := stores[t].data;
        var i := 0;
        while i < |data|
          invariant 0 <= i <= |data|
          invariant visited == AllRefs(stores[..t]) + TreeRefs(stores, t)[..i]
          invariant forall q :: q in visited ==> ValidRef(stores, q)
          invariant saved == ById(stores, m, visited)
        {
          assert (visited + [Ref(t, i)])[..|visited|] == visited;
          if Ref(t, i) in m {
            saved := saved[data[i].id := m[Ref(t, i)]];
          }
          assert TreeRefs(stores, t)[..i + 1] == TreeRefs(stores, t)[..i] + [Ref(t, i)];
          visited := visited + [Ref(t, i)];
          i := i + 1;
        }
        assert stores[..t + 1][..t] == stores[..t];
        assert TreeRefs(stores, t)[..i] == TreeRefs(stores[..t + 1], t);
        t := t + 1;
      }
      assert stores[..t] == stores;
    }

    /** `saveProgress()`: it first re-applies the automatic slot when one is
        stored, then writes the record of the session. */
    method SaveProgress(autoSlot: Option<Record>) returns (rec: Record)
      modifies this
      ensures autoSlot.None? ==> Snapshot() == old(Snapshot())
      ensures autoSlot.Some? ==> Snapshot() == Restore(stores, old(Snapshot()), autoSlot.value)
      ensures rec == SaveOf(stores, Snapshot())
    {
      if autoSlot.Some? {
        ApplyRecord(autoSlot.value);
      }
      var poolChoices := CollectById(poolChoice);
      var awakeningValues := CollectById(awakening);
      rec := Record(Some(selected), Some(totalPoints), Some(charName), Some(poolChoices), Some(awakeningValues));
    }

    /** `loadProgress()`: nothing happens without a save. */
    method LoadProgress(slot: Option<Record>) returns (found: bool)
      modifies this
      ensures found <==> slot.Some?
      ensures slot.None? ==> Snapshot() == old(Snapshot())
      ensures slot.Some? ==> Snapshot() == Restore(stores, old(Snapshot()), slot.value)
    {
      if slot.None? {
        return false;
      }
      ApplyRecord(slot.value);
      return true;
    }

    /** `randomizeSkills(mode)`, with the eligibility check asking for the key
        that the loop adds. */
    method RandomizeSkills(mode: Mode) returns (result: RandomOutcome)
      modifies this
      ensures totalPoints == old(totalPoints) && charName == old(charName)
      ensures poolChoice == old(poolChoice) && awakening == old(awakening)
      ensures var rem0 := old(totalPoints) - Spent(stores, old(selected));
        (rem0 <= 0 ==> result == NoPoints && selected == old(selected)) &&
        (rem0 > 0 && Available(stores, old(selected), rem0, Filtered(stores, mode), TreeKey) == [] ==>
          result == NoneAvailable && selected == old(selected)) &&
        (rem0 > 0 && Available(stores, old(selected), rem0, Filtered(stores, mode), TreeKey) != [] ==>
          result.Picked? && PickedFrom(stores, Filtered(stores, mode), old(selected), rem0, selected, result.remaining))
    {
      var filtered := Filtered(stores, mode);
      var spent := GetSpent();
      var remaining := totalPoints - spent;
      if remaining <= 0 {
        return NoPoints;
      }
      var available := Available(stores, selected, remaining, filtered, TreeKey);
      if |available| == 0 {
        return NoneAvailable;
      }
      selected, remaining := PickLoop(stores, filtered, selected, remaining, available);
      return Picked(remaining);
    }
  }

  /** What the picking loop guarantees, from `sel0` and `rem0` points to `sel`
      and `remaining` points: at least one new key, every new key one that a
      node of `refs` adds, never a negative balance, nothing eligible left
      while points remain, and, when ids are unique, points paid exactly as
      `getSpent()` counts them. */
  ghost predicate PickedFrom(stores: seq<Store>, refs: seq<Ref>, sel0: set<string>, rem0: int, sel: set<string>, remaining: int)
    requires forall q :: q in refs ==> ValidRef(stores, q)
  {
    sel0 < sel && sel - sel0 <= PickKeys(stores, refs) && remaining >= 0 &&
    (remaining > 0 ==> forall q :: q in refs ==> !Eligible(stores, sel, remaining, q, TreeKey)) &&
    (WellFormed(stores) && GloballyUnique(stores) ==>
      remaining + Spent(stores, sel) == rem0 + Spent(stores, sel0))
  }

  /** The `while` loop of `randomizeSkills`: pick a random available node,
      add its key, pay for it, and list the eligible nodes afresh. The random
      index is any index of the list. */
  method PickLoop(stores: seq<Store>, filtered: seq<Ref>, sel0: set<string>, rem0: int, available0: seq<Ref>)
    returns (sel: set<string>, remaining: int)
    requires forall q :: q in filtered ==> ValidRef(stores, q)
    requires rem0 > 0 && available0 == Available(stores, sel0, rem0, filtered, TreeKey) && available0 != []
    ensures PickedFrom(stores, filtered, sel0, rem0, sel, remaining)
  {
    sel, remaining := sel0, rem0;
    var available := available0;
    ghost var wf := WellFormed(stores) && GloballyUnique(stores);
    ghost var universe := PickKeys(stores, filtered);
    while |available| > 0 && remaining > 0
      invariant remaining >= 0
      invariant available == Available(stores, sel, remaining, filtered, TreeKey)
      invariant sel0 <= sel && sel - sel0 <= universe
      invariant sel == sel0 ==> remaining == rem0
      invariant wf ==> remaining + Spent(stores, sel) == rem0 + Spent(stores, sel0)
      decreases |universe - sel|, |available|
    {
      var idx :| 0 <= idx < |available|;
      var r := available[idx];
      PickedKeyIsNew(stores, filtered, sel, remaining, r, universe);
      var skill := NodeAt(stores, r);
      var cost := Cost(skill);
      var rest := available[..idx] + available[idx + 1..];
      if cost > remaining {
        available := rest;
      } else {
        match PickKey(stores, skill.id)
        case None =>
          available := rest;
        case Some(key) =>
          ghost var before := sel;
          sel := sel + {key};
          assert universe - sel == (universe - before) - {key};
          Stats.RemoveShrinks(universe - before, key);
          if wf {
            PickCostsNode(stores, before, r);
          }
          remaining := remaining - cost;
          available := Available(stores, sel, remaining, filtered, TreeKey);
      }
    }
    assert sel == sel0 ==> available == available0;
    AvailableExact(stores, sel, remaining, filtered, TreeKey);
  }

  /** The node a pick takes is eligible, so its key is new and one of the keys
      the filtered nodes can add. */
  lemma PickedKeyIsNew(stores: seq<Store>, filtered: seq<Ref>, sel: set<string>, remaining: int, r: Ref, universe: set<string>)
    requires forall q :: q in filtered ==> ValidRef(stores, q)
    requires r in Available(stores, sel, remaining, filtered, TreeKey)
    requires universe == PickKeys(stores, filtered)
    ensures ValidRef(stores, r)
    ensures PickKey(stores, NodeAt(stores, r).id).Some?
    ensures PickKey(stores, NodeAt(stores, r).id).value !in sel
    ensures PickKey(stores, NodeAt(stores, r).id).value in universe
    ensures Cost(NodeAt(stores, r)) <= remaining
  {
    AvailableExact(stores, sel, remaining, filtered, TreeKey);
    PickKeysExact(stores, filtered, PickKey(stores, NodeAt(stores, r).id).value);
  }

  /** When ids are unique across all trees, the key a pick adds is the node's
      own, so `getSpent()` rises by exactly the node's cost. */
  lemma PickCostsNode(stores: seq<Store>, sel: set<string>, r: Ref)
    requires WellFormed(stores) && GloballyUnique(stores) && ValidRef(stores, r)
    requires PickKey(stores, NodeAt(stores, r).id).Some? && PickKey(stores, NodeAt(stores, r).id).value !in sel
    ensures Spent(stores, sel + {PickKey(stores, NodeAt(stores, r).id).value}) == Spent(stores, sel) + Cost(NodeAt(stores, r))
  {
    var id := NodeAt(stores, r).id;
    var q := FirstNode(stores, id).value;
    assert q == r;
    assert PickKey(stores, id) == Some(Key(stores[r.tree].treeId, id));
    SpentAdd(stores, sel, Key(stores[r.tree].treeId, id));
    KeyCostOfNode(stores, r);
  }
}
