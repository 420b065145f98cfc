/** The save record and its mapping to and from the session (script.js,
    `saveProgress` and `loadProgress`): the selected keys, the point total, the
    character name, and the per-node pool choices and awakening values keyed
    by bare skill id. */
module Persistence {
  import opened Text
  import opened Skills
  import opened Selection

  /** A save record as it comes back from storage; any field may be missing. */
  datatype Record = Record(
    selected: Option<set<string>>,
    totalPoints: Option<int>,
    charName: Option<string>,
    poolChoices: Option<map<string, int>>,
    awakeningValues: Option<map<string, Awakening>>)

  /** Node values keyed by bare id, visiting `refs` in order so that a later
      node with the same id overwrites an earlier one. */
  function ById<V>(stores: seq<Store>, m: map<Ref, V>, refs: seq<Ref>): map<string, V>
    requires forall r :: r in refs ==> ValidRef(stores, r)
  {
    if refs == [] then map[]
    else
      var r := refs[|refs| - 1];
      var rest := ById(stores, m, refs[..|refs| - 1]);
      if r in m then rest[NodeAt(stores, r).id := m[r]] else rest
  }

  /** An id is saved exactly when some node carrying it holds a value. */
  lemma {:induction false} ByIdKeys<V>(stores: seq<Store>, m: map<Ref, V>, refs: seq<Ref>, id: string)
    requires forall r :: r in refs ==> ValidRef(stores, r)
    ensures id in ById(stores, m, refs) <==> exists r :: r in refs && r in m && NodeAt(stores, r).id == id
  {
    if refs != [] {
      var init := refs[..|refs| - 1];
      ByIdKeys(stores, m, init, id);
      assert forall r :: r in refs <==> r in init || r == refs[|refs| - 1];
    }
  }

  /** When node `r` is the only one with its id that holds a value, its id is
      saved with its value. */
  lemma {:induction false} ByIdValue<V>(stores: seq<Store>, m: map<Ref, V>, refs: seq<Ref>, r: Ref)
    requires forall q :: q in refs ==> ValidRef(stores, q)
    requires r in refs && r in m
    requires forall q :: q in refs && q in m && NodeAt(stores, q).id == NodeAt(stores, r).id ==> q == r
    ensures NodeAt(stores, r).id in ById(stores, m, refs)
    ensures ById(stores, m, refs)[NodeAt(stores, r).id] == m[r]
  {
    var init := refs[..|refs| - 1];
    var last := refs[|refs| - 1];
    if !(last in m && NodeAt(stores, last).id == NodeAt(stores, r).id) {
      assert r in init;
      ByIdValue(stores, m, init, r);
    }
  }

  /** `saveProgress()`'s record of a session. */
  function SaveOf(stores: seq<Store>, st: State): Record {
    var refs := AllRefs(stores);
    Record(Some(st.selected), Some(st.totalPoints), Some(st.charName),
           Some(ById(stores, st.poolChoice, refs)), Some(ById(stores, st.awakening, refs)))
  }

  /** The restore loop over the nodes: a node whose id the record holds takes
      the saved value; every other node keeps the value it had. */
  function RestoreOver<V>(stores: seq<Store>, m: map<Ref, V>, saved: map<string, V>, refs: seq<Ref>): map<Ref, V>
    requires forall r :: r in refs ==> ValidRef(stores, r)
  {
    if refs == [] then m
    else
      var r := refs[|refs| - 1];
      var rest := RestoreOver(stores, m, saved, refs[..|refs| - 1]);
      if NodeAt(stores, r).id in saved then rest[r := saved[NodeAt(stores, r).id]] else rest
  }

  lemma {:induction false} RestoreOverSpec<V>(stores: seq<Store>, m: map<Ref, V>, saved: map<string, V>, refs: seq<Ref>, r: Ref)
    requires forall q :: q in refs ==> ValidRef(stores, q)
    ensures r in refs && NodeAt(stores, r).id in saved ==>
      r in RestoreOver(stores, m, saved, refs) && RestoreOver(stores, m, saved, refs)[r] == saved[NodeAt(stores, r).id]
    ensures !(r in refs && NodeAt(stores, r).id in saved) ==>
      (r in RestoreOver(stores, m, saved, refs) <==> r in m) &&
      (r in m ==> RestoreOver(stores, m, saved, refs)[r] == m[r])
  {
    if refs != [] {
      var init := refs[..|refs| - 1];
      RestoreOverSpec(stores, m, saved, init, r);
      assert forall q :: q in refs <==> q in init || q == refs[|refs| - 1];
    }
  }

  /** Applying a record: its selection replaces the session's (none means
      empty); a non-zero total and a non-empty name replace the current ones;
      saved pool choices and awakening values are set on every node with that
      id, and nothing is ever cleared. */
  function Restore(stores: seq<Store>, st: State, rec: Record): State {
    var refs := AllRefs(stores);
    State(rec.selected.GetOr({}),
          NumOr(rec.totalPoints, st.totalPoints),
          OrElse(rec.charName, st.charName),
          RestoreOver(stores, st.poolChoice, rec.poolChoices.GetOr(map[]), refs),
          RestoreOver(stores, st.awakening, rec.awakeningValues.GetOr(map[]), refs))
  }

  /** No two nodes in any tree share an id. */
  ghost predicate GloballyUnique(stores: seq<Store>) {
    forall a, b :: ValidRef(stores, a) && ValidRef(stores, b) && NodeAt(stores, a).id == NodeAt(stores, b).id ==> a == b
  }

  /** The values live on node objects only. */
  predicate OnNodes(stores: seq<Store>, st: State) {
    (forall r :: r in st.poolChoice ==> ValidRef(stores, r)) && (forall r :: r in st.awakening ==> ValidRef(stores, r))
  }

  lemma RoundTripMap<V>(stores: seq<Store>, m: map<Ref, V>, m0: map<Ref, V>)
    requires GloballyUnique(stores) && forall r :: r in m ==> ValidRef(stores, r)
    ensures var back := RestoreOver(stores, m0, ById(stores, m, AllRefs(stores)), AllRefs(stores));
      (forall r :: r in m ==> r in back && back[r] == m[r]) &&
      (forall r :: ValidRef(stores, r) && r !in m ==> (r in back <==> r in m0) && (r in m0 ==> back[r] == m0[r]))
  {
    var refs := AllRefs(stores);
    var saved := ById(stores, m, refs);
    forall r | r in m
      ensures r in RestoreOver(stores, m0, saved, refs) && RestoreOver(stores, m0, saved, refs)[r] == m[r]
    {
      ByIdValue(stores, m, refs, r);
      RestoreOverSpec(stores, m0, saved, refs, r);
    }
    forall r | ValidRef(stores, r) && r !in m
      ensures var back := RestoreOver(stores, m0, saved, refs);
        (r in back <==> r in m0) && (r in m0 ==> back[r] == m0[r])
    {
      ByIdKeys(stores, m, refs, NodeAt(stores, r).id);
      RestoreOverSpec(stores, m0, saved, refs, r);
    }
  }

  /** Loading what was saved gives back the selection and every stored pool
      choice and awakening value; a zero total or an empty name leave the
      loading session's own, and values of nodes that had none when saved are
      left as the loading session had them. */
  lemma SaveLoadRoundTrip(stores: seq<Store>, st: State, st0: State)
    requires GloballyUnique(stores) && OnNodes(stores, st)
    ensures var back := Restore(stores, st0, SaveOf(stores, st));
      back.selected == st.selected &&
      back.totalPoints == (if st.totalPoints != 0 then st.totalPoints else st0.totalPoints) &&
      back.charName == (if st.charName != "" then st.charName else st0.charName) &&
      (forall r :: r in st.poolChoice ==> r in back.poolChoice && back.poolChoice[r] == st.poolChoice[r]) &&
      (forall r :: ValidRef(stores, r) && r !in st.poolChoice ==>
        (r in back.poolChoice <==> r in st0.poolChoice) && (r in st0.poolChoice ==> back.poolChoice[r] == st0.poolChoice[r])) &&
      (forall r :: r in st.awakening ==> r in back.awakening && back.awakening[r] == st.awakening[r]) &&
      (forall r :: ValidRef(stores, r) && r !in st.awakening ==>
        (r in back.awakening <==> r in st0.awakening) && (r in st0.awakening ==> back.awakening[r] == st0.awakening[r]))
  {
    RoundTripMap(stores, st.poolChoice, st0.poolChoice);
    RoundTripMap(stores, st.awakening, st0.awakening);
  }

  /** Saving and loading into the same session changes nothing. */
  lemma SaveLoadIdentity(stores: seq<Store>, st: State)
    requires GloballyUnique(stores) && OnNodes(stores, st)
    ensures Restore(stores, st, SaveOf(stores, st)) == st
  {
    RoundTripInto(stores, st.poolChoice, st.poolChoice);
    RoundTripInto(stores, st.awakening, st.awakening);
  }

  /** Restoring the save of `m` over values that `m` already holds gives `m`
      back. */
  lemma RoundTripInto<V>(stores: seq<Store>, m: map<Ref, V>, m0: map<Ref, V>)
    requires GloballyUnique(stores) && forall r :: r in m ==> ValidRef(stores, r)
    requires forall r :: r in m0 ==> r in m
    ensures RestoreOver(stores, m0, ById(stores, m, AllRefs(stores)), AllRefs(stores)) == m
  {
    var saved := ById(stores, m, AllRefs(stores));
    RoundTripMap(stores, m, m0);
    RestoreOnNodes(stores, m0, saved);
  }

  /** Restoring never attaches a value to anything but a node. */
  lemma RestoreOnNodes<V>(stores: seq<Store>, m: map<Ref, V>, saved: map<string, V>)
    requires forall r :: r in m ==> ValidRef(stores, r)
    ensures forall r :: r in RestoreOver(stores, m, saved, AllRefs(stores)) ==> ValidRef(stores, r)
  {
    forall r | r in RestoreOver(stores, m, saved, AllRefs(stores))
      ensures ValidRef(stores, r)
    {
      RestoreOverSpec(stores, m, saved, AllRefs(stores), r);
    }
  }

  /** A record from before a reset brings every saved pool choice back. */
  lemma LoadAfterResetRestoresChoices(stores: seq<Store>, st: State)
    requires GloballyUnique(stores) && OnNodes(stores, st)
    ensures Restore(stores, Reset(stores, st), SaveOf(stores, st)).poolChoice == st.poolChoice
  {
    RoundTripInto(stores, st.poolChoice, Reset(stores, st).poolChoice);
  }
}
