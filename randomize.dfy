/** The random build (script.js, `randomizeSkills`): which nodes a mode
    offers, which of them are eligible, and one step of the picking loop. */
module Randomize {
  import opened Text
  import opened Skills
  import opened Selection

  /** `all`, or a tree prefix and a role such as `arm` and `offense`. */
  datatype Mode = All | Only(prefix: string, role: string)

  /** `treeMap[prefix]` */
  function TargetTree(prefix: string): Option<string> {
    if prefix == "arm" then Some("armament-tree")
    else if prefix == "obs" then Some("observation-tree")
    else None
  }

  /** The first tree holding a node with id `id`. */
  function StoreHolding(stores: seq<Store>, id: string): (r: Option<nat>)
    ensures r.Some? ==> r.value < |stores| && exists i :: 0 <= i < |stores[r.value].data| && stores[r.value].data[i].id == id
    ensures r.None? ==> forall t, i :: 0 <= t < |stores| && 0 <= i < |stores[t].data| ==> stores[t].data[i].id != id
  {
    match FirstNode(stores, id)
    case None => None
    case Some(q) => Some(q.tree)
  }

  /** Whether the mode offers node `r`: in a tree-and-role mode, the tree
      holding its id is the target tree and its type is the role or `shared`. */
  predicate InMode(stores: seq<Store>, mode: Mode, r: Ref)
    requires ValidRef(stores, r)
  {
    match mode
    case All => true
    case Only(prefix, role) =>
      var s := NodeAt(stores, r);
      var holder := StoreHolding(stores, s.id);
      var kind := Lower(OrElse(Some(s.role), "shared"));
      holder.Some? && TargetTree(prefix) == Some(stores[holder.value].treeId) && (kind == role || kind == "shared")
  }

  function FilterMode(stores: seq<Store>, mode: Mode, refs: seq<Ref>): (rs: seq<Ref>)
    requires forall r :: r in refs ==> ValidRef(stores, r)
    ensures forall r :: r in rs <==> r in refs && InMode(stores, mode, r)
  {
    if refs == [] then []
    else
      var r := refs[|refs| - 1];
      var rest := FilterMode(stores, mode, refs[..|refs| - 1]);
      assert forall q :: q in refs <==> q in refs[..|refs| - 1] || q == r;
      if InMode(stores, mode, r) then rest + [r] else rest
  }

  /** `filteredNodes`: the nodes of all trees the mode offers, in load order. */
  function Filtered(stores: seq<Store>, mode: Mode): (rs: seq<Ref>)
    ensures forall r :: r in rs <==> ValidRef(stores, r) && InMode(stores, mode, r)
  {
    FilterMode(stores, mode, AllRefs(stores))
  }

  /** The key the loop adds for a node with id `id`: the id of the first tree
      holding it, `::`, the id. */
  function PickKey(stores: seq<Store>, id: string): Option<string> {
    match StoreHolding(stores, id)
    case None => None
    case Some(t) => Some(Key(stores[t].treeId, id))
  }

  /** A requirement counts as met when the first tree holding its id has it selected. */
  predicate Held(stores: seq<Store>, sel: set<string>, rid: string) {
    var k := PickKey(stores, rid);
    k.Some? && k.value in sel
  }

  /** The requirement check of the random build: only `requires_operator` is
      read, and anything but `or` means every requirement. */
  predicate RandomReqsMet(stores: seq<Store>, sel: set<string>, s: Skill) {
    s.reqs == [] ||
    if Lower(OrElse(s.opSnake, "")) == "or" then exists k :: 0 <= k < |s.reqs| && Held(stores, sel, s.reqs[k])
    else forall k :: 0 <= k < |s.reqs| ==> Held(stores, sel, s.reqs[k])
  }

  /** How the eligibility check spells "already selected". */
  datatype KeyRule =
    | TypeKey   // `${skill.type}::${skill.id}`, as the source spells it
    | TreeKey   // the key the loop itself adds

  function SeenKey(stores: seq<Store>, r: Ref, rule: KeyRule): Option<string>
    requires ValidRef(stores, r)
  {
    match rule
    case TypeKey => Some(Key(NodeAt(stores, r).role, NodeAt(stores, r).id))
    case TreeKey => PickKey(stores, NodeAt(stores, r).id)
  }

  /** Node `r` may be picked: not yet selected by the rule's key, affordable,
      and its requirements met. */
  predicate Eligible(stores: seq<Store>, sel: set<string>, remaining: int, r: Ref, rule: KeyRule)
    requires ValidRef(stores, r)
  {
    var seen := SeenKey(stores, r, rule);
    (seen.Some? && seen.value !in sel) && Cost(NodeAt(stores, r)) <= remaining && RandomReqsMet(stores, sel, NodeAt(stores, r))
  }

  /** `availableSkills`: the eligible nodes among `refs`, in order. */
  function Available(stores: seq<Store>, sel: set<string>, remaining: int, refs: seq<Ref>, rule: KeyRule): seq<Ref>
    requires forall r :: r in refs ==> ValidRef(stores, r)
  {
    if refs == [] then []
    else
      var r := refs[|refs| - 1];
      var rest := Available(stores, sel, remaining, refs[..|refs| - 1], rule);
      if Eligible(stores, sel, remaining, r, rule) then rest + [r] else rest
  }

  /** The list holds exactly the eligible nodes of `refs`. */
  lemma {:induction false} AvailableExact(stores: seq<Store>, sel: set<string>, remaining: int, refs: seq<Ref>, rule: KeyRule)
    requires forall r :: r in refs ==> ValidRef(stores, r)
    ensures forall r :: r in Available(stores, sel, remaining, refs, rule) <==> r in refs && Eligible(stores, sel, remaining, r, rule)
  {
    if refs != [] {
      var init := refs[..|refs| - 1];
      AvailableExact(stores, sel, remaining, init, rule);
      assert forall q :: q in refs <==> q in init || q == refs[|refs| - 1];
    }
  }

  /** Every key the loop could add for a node of `refs`. */
  function PickKeys(stores: seq<Store>, refs: seq<Ref>): set<string>
    requires forall r :: r in refs ==> ValidRef(stores, r)
  {
    if refs == [] then {}
    else
      var r := refs[|refs| - 1];
      var rest := PickKeys(stores, refs[..|refs| - 1]);
      match PickKey(stores, NodeAt(stores, r).id)
      case None => rest
      case Some(k) => rest + {k}
  }

  lemma {:induction false} PickKeysExact(stores: seq<Store>, refs: seq<Ref>, k: string)
    requires forall r :: r in refs ==> ValidRef(stores, r)
    ensures k in PickKeys(stores, refs) <==> exists r :: r in refs && PickKey(stores, NodeAt(stores, r).id) == Some(k)
  {
    if refs != [] {
      var init := refs[..|refs| - 1];
      PickKeysExact(stores, init, k);
      assert forall r :: r in refs <==> r in init || r == refs[|refs| - 1];
    }
  }

  /** The state of the picking loop. */
  datatype Picking = Picking(sel: set<string>, remaining: int, available: seq<Ref>)

  /** One pass of the loop with the random index `idx`: an unaffordable node
      or one in no tree is dropped; otherwise its key is added, its cost paid,
      and the eligible nodes are computed afresh. */
  function PickStep(stores: seq<Store>, filtered: seq<Ref>, rule: KeyRule, p: Picking, idx: nat): Picking
    requires forall r :: r in filtered ==> ValidRef(stores, r)
    requires forall r :: r in p.available ==> ValidRef(stores, r)
    requires idx < |p.available|
  {
    var r := p.available[idx];
    var s := NodeAt(stores, r);
    var dropped := p.available[..idx] + p.available[idx + 1..];
    if Cost(s) > p.remaining then p.(available := dropped)
    else match PickKey(stores, s.id)
      case None => p.(available := dropped)
      case Some(key) =>
        var sel := p.sel + {key};
        var remaining := p.remaining - Cost(s);
        Picking(sel, remaining, Available(stores, sel, remaining, filtered, rule))
  }

  /** The loop goes on while some node is available and points remain. */
  predicate Continues(p: Picking) {
    |p.available| > 0 && p.remaining > 0
  }

  // --------------------------------------- the eligibility key as written

  const FreeNode: Skill := Skill("haki_basics", None, "shared", [], None, None, None, [],
                                 None, None, None, None, None, None)
  const OneTree: seq<Store> := [Store("armament-tree", [FreeNode])]

  lemma OneTreeFiltered() returns (filtered: seq<Ref>)
    ensures filtered == Filtered(OneTree, All) == [Ref(0, 0)]
  {
    assert TreeRefs(OneTree, 0) == [Ref(0, 0)];
    assert OneTree[..0] == [];
    assert AllRefs(OneTree) == [Ref(0, 0)];
    var refs := [Ref(0, 0)];
    assert refs[..0] == [];
    assert ValidRef(OneTree, Ref(0, 0)) && InMode(OneTree, All, Ref(0, 0));
    assert FilterMode(OneTree, All, []) == [];
    filtered := FilterMode(OneTree, All, refs);
    assert filtered == FilterMode(OneTree, All, []) + [Ref(0, 0)];
  }

  /** As written, the key a pick adds is never the key eligibility asks about,
      so a free node stays available after it is picked and the loop state
      repeats itself: one point left, one free node, and the loop never ends. */
  lemma TypeKeyLoopsForever()
    ensures var filtered := Filtered(OneTree, All);
      var p := Picking({"armament-tree::haki_basics"}, 1, [Ref(0, 0)]);
      filtered == [Ref(0, 0)] &&
      Continues(p) && PickStep(OneTree, filtered, TypeKey, p, 0) == p
  {
    var filtered := OneTreeFiltered();
    assert FirstNode(OneTree, "haki_basics") == Some(Ref(0, 0));
    var sel := {"armament-tree::haki_basics"};
    assert Key("armament-tree", "haki_basics") == "armament-tree::haki_basics";
    assert Key("shared", "haki_basics") !in sel by {
      assert Key("shared", "haki_basics")[0] == 's';
    }
    assert Eligible(OneTree, sel, 1, Ref(0, 0), TypeKey);
    assert filtered[..0] == [];
    assert Available(OneTree, sel, 1, filtered, TypeKey) == [Ref(0, 0)];
    var p := Picking(sel, 1, [Ref(0, 0)]);
    assert NodeAt(OneTree, Ref(0, 0)) == FreeNode && Cost(FreeNode) == 0;
    assert PickKey(OneTree, "haki_basics") == Some("armament-tree::haki_basics");
    assert sel + {"armament-tree::haki_basics"} == sel;
    assert PickStep(OneTree, filtered, TypeKey, p, 0) == Picking(sel, 1, Available(OneTree, sel, 1, filtered, TypeKey));
  }

  /** With the key the loop adds, a picked node is no longer eligible: each
      pick selects a new key, and a free node is picked once. */
  lemma TreeKeyPicksOnce(stores: seq<Store>, filtered: seq<Ref>, p: Picking, idx: nat)
    requires forall r :: r in filtered ==> ValidRef(stores, r)
    requires forall r :: r in p.available ==> ValidRef(stores, r)
    requires idx < |p.available| && Eligible(stores, p.sel, p.remaining, p.available[idx], TreeKey)
    ensures var q := PickStep(stores, filtered, TreeKey, p, idx);
      var key := PickKey(stores, NodeAt(stores, p.available[idx]).id).value;
      key !in p.sel && q.sel == p.sel + {key} &&
      q.remaining == p.remaining - Cost(NodeAt(stores, p.available[idx])) && q.remaining >= 0 &&
      p.available[idx] !in q.available
  {
    var s := NodeAt(stores, p.available[idx]);
    var key := PickKey(stores, s.id).value;
    AvailableExact(stores, p.sel + {key}, p.remaining - Cost(s), filtered, TreeKey);
  }

  /** The same free node under the corrected key: once picked it is gone, and
      the loop stops. */
  lemma TreeKeyStops()
    ensures var filtered := Filtered(OneTree, All);
      var p := Picking({}, 1, [Ref(0, 0)]);
      var q := PickStep(OneTree, filtered, TreeKey, p, 0);
      q == Picking({"armament-tree::haki_basics"}, 1, []) && !Continues(q)
  {
    var filtered := OneTreeFiltered();
    assert FirstNode(OneTree, "haki_basics") == Some(Ref(0, 0));
    var sel := {"armament-tree::haki_basics"};
    assert Key("armament-tree", "haki_basics") == "armament-tree::haki_basics";
    assert !Eligible(OneTree, sel, 1, Ref(0, 0), TreeKey);
    assert filtered[..0] == [];
    assert Available(OneTree, sel, 1, filtered, TreeKey) == [];
    var p := Picking({}, 1, [Ref(0, 0)]);
    assert NodeAt(OneTree, Ref(0, 0)) == FreeNode && Cost(FreeNode) == 0;
    assert PickKey(OneTree, "haki_basics") == Some("armament-tree::haki_basics");
    assert {} + {"armament-tree::haki_basics"} == sel;
    assert PickStep(OneTree, filtered, TreeKey, p, 0) == Picking(sel, 1, Available(OneTree, sel, 1, filtered, TreeKey));
  }
}
