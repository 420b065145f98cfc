/** The node records of a skill tree, their load-time defaults, and the
    prerequisite rules that decide whether a node may be selected
    (script.js, the loader and the click and availability handlers). */
module Skills {
  import opened Text

  /** An entry of a node's `effects` list; its `type` field is `kind` here. */
  datatype Effect = Effect(
    kind: Option<string>,
    delta: Option<int>,
    value: Option<string>,
    slot: Option<string>,
    defaultValue: Option<int>)

  /** The `requires` field as a tree file may give it: a list, one id, or nothing. */
  datatype Requires = ReqList(ids: seq<string>) | ReqOne(id: string) | ReqNone

  /** A node record as read from a tree file. */
  datatype RawSkill = RawSkill(
    id: Option<string>,
    name: Option<string>,
    role: Option<string>,        // type
    reqs: Requires,              // requires
    opSnake: Option<string>,     // requires_operator
    opCamel: Option<string>,     // requiresOperator
    cost: Option<int>,
    effects: seq<Effect>,
    tier: Option<int>,
    tierAlt: Option<int>,        // Tier
    positionTag: Option<string>,
    offsetX: Option<int>,        // positionOffsetX
    offsetY: Option<int>,        // positionOffsetY
    offset: Option<int>)         // positionOffset

  /** A node after the loader has filled in `id`, `type` and `requires`. */
  datatype Skill = Skill(
    id: string,
    name: Option<string>,
    role: string,                // type
    reqs: seq<string>,           // requires
    opSnake: Option<string>,
    opCamel: Option<string>,
    cost: Option<int>,
    effects: seq<Effect>,
    tier: Option<int>,
    tierAlt: Option<int>,
    positionTag: Option<string>,
    offsetX: Option<int>,
    offsetY: Option<int>,
    offset: Option<int>)

  /** One loaded tree: its id and its nodes in file order. */
  datatype Store = Store(treeId: string, data: seq<Skill>)

  /** A node object, by the index of its tree and its index in that tree. */
  datatype Ref = Ref(tree: nat, index: nat)

  const AwakeningId: string := "armament_awakening"

  // ------------------------------------------------------------ loading

  function RequiresList(r: Requires): seq<string> {
    match r
    case ReqList(ids) => ids
    case ReqOne(id) => if id != "" then [id] else []
    case ReqNone => []
  }

  /** The load-time defaults; `None` where the record has neither an id nor a
      name, for which the loader's `name.toLowerCase()` throws. */
  function Normalise(raw: RawSkill): (r: Option<Skill>)
    ensures r.Some? <==> (OrElse(raw.id, "") != "" || raw.name.Some?)
    ensures r.Some? ==> r.value.role == Lower(OrElse(raw.role, "shared"))
    ensures r.Some? && raw.role.None? ==> r.value.role == "shared"
    ensures r.Some? && OrElse(raw.id, "") != "" ==> r.value.id == raw.id.value
    ensures r.Some? && OrElse(raw.id, "") == "" ==> r.value.id == Slug(raw.name.value) && Spaceless(r.value.id)
    ensures r.Some? && raw.reqs.ReqList? ==> r.value.reqs == raw.reqs.ids
    ensures r.Some? && raw.reqs.ReqOne? && raw.reqs.id != "" ==> r.value.reqs == [raw.reqs.id]
    ensures r.Some? && raw.reqs.ReqNone? ==> r.value.reqs == []
  {
    var id :=
      if OrElse(raw.id, "") != "" then Some(raw.id.value)
      else if raw.name.Some? then Some(Slug(raw.name.value))
      else None;
    if id.None? then None
    else Some(Skill(id.value, raw.name, Lower(OrElse(raw.role, "shared")), RequiresList(raw.reqs),
                    raw.opSnake, raw.opCamel, raw.cost, raw.effects, raw.tier, raw.tierAlt,
                    raw.positionTag, raw.offsetX, raw.offsetY, raw.offset))
  }

  /** `Number(s.cost || 0)` */
  function Cost(s: Skill): int {
    NumOr(s.cost, 0)
  }

  /** The node's lower-cased position tag, `''` when it has none. */
  function Tag(s: Skill): string {
    Lower(OrElse(s.positionTag, ""))
  }

  /** Whether a node asks for a pool choice when it is selected. */
  predicate HasPoolChoice(s: Skill) {
    exists k :: 0 <= k < |s.effects| && Lower(OrElse(s.effects[k].kind, "")) == "pool_choice"
  }

  // ----------------------------------------------------- prerequisites

  /** `(requires_operator || requiresOperator || '').toLowerCase()` */
  function Operator(s: Skill): string {
    Lower(OrElse(s.opSnake, OrElse(s.opCamel, "")))
  }

  datatype Semantics = AnyOf | AllOf

  /** How the select handler reads a node's operator: `or` and `and` as
      written; any other operator means OR on a `shared` node and AND otherwise. */
  function SelectSemantics(s: Skill): Semantics {
    var op := Operator(s);
    if op == "or" then AnyOf
    else if op == "and" then AllOf
    else if OrElse(Some(s.role), "shared") == "shared" then AnyOf
    else AllOf
  }

  /** Some requirement, looked up in `has`, is present. */
  predicate SomeHeld(reqs: seq<string>, has: string -> bool) {
    exists k :: 0 <= k < |reqs| && has(reqs[k])
  }

  predicate AllHeld(reqs: seq<string>, has: string -> bool) {
    forall k :: 0 <= k < |reqs| ==> has(reqs[k])
  }

  predicate Meets(reqs: seq<string>, sem: Semantics, has: string -> bool) {
    |reqs| == 0 || (if sem == AnyOf then SomeHeld(reqs, has) else AllHeld(reqs, has))
  }

  /** Whether requirement `rid` of a node of tree `treeId` is selected. */
  function InTree(treeId: string, sel: set<string>): string -> bool {
    rid => Key(treeId, rid) in sel
  }

  /** The select handler's prerequisite check for node `s` of tree `treeId`. */
  predicate PrereqMet(s: Skill, treeId: string, sel: set<string>) {
    Meets(s.reqs, SelectSemantics(s), InTree(treeId, sel))
  }

  lemma EmptyRequiresAlwaysMet(s: Skill, treeId: string, sel: set<string>)
    requires s.reqs == []
    ensures PrereqMet(s, treeId, sel)
  {
  }

  /** The four operator cases of the prerequisite check, stated on the
      requirement ids themselves. */
  lemma PrereqCases(s: Skill, treeId: string, sel: set<string>)
    requires s.reqs != []
    ensures Operator(s) == "or" ==>
      (PrereqMet(s, treeId, sel) <==> exists rid :: rid in s.reqs && Key(treeId, rid) in sel)
    ensures Operator(s) == "and" ==>
      (PrereqMet(s, treeId, sel) <==> forall rid :: rid in s.reqs ==> Key(treeId, rid) in sel)
    ensures Operator(s) != "or" && Operator(s) != "and" && (s.role == "" || s.role == "shared") ==>
      (PrereqMet(s, treeId, sel) <==> exists rid :: rid in s.reqs && Key(treeId, rid) in sel)
    ensures Operator(s) != "or" && Operator(s) != "and" && s.role != "" && s.role != "shared" ==>
      (PrereqMet(s, treeId, sel) <==> forall rid :: rid in s.reqs ==> Key(treeId, rid) in sel)
  {
    assert forall rid :: rid in s.reqs <==> exists k :: 0 <= k < |s.reqs| && s.reqs[k] == rid;
  }

  /** Selecting more never withdraws a prerequisite. */
  lemma PrereqMonotone(s: Skill, treeId: string, a: set<string>, b: set<string>)
    requires a <= b && PrereqMet(s, treeId, a)
    ensures PrereqMet(s, treeId, b)
  {
    if s.reqs != [] && SelectSemantics(s) == AnyOf {
      var k :| 0 <= k < |s.reqs| && Key(treeId, s.reqs[k]) in a;
      assert InTree(treeId, b)(s.reqs[k]);
    }
  }

  /** The check reads the selection only at the keys of the node's own requirements. */
  lemma PrereqFrame(s: Skill, treeId: string, a: set<string>, b: set<string>)
    requires forall k :: 0 <= k < |s.reqs| ==> (Key(treeId, s.reqs[k]) in a <==> Key(treeId, s.reqs[k]) in b)
    ensures PrereqMet(s, treeId, a) <==> PrereqMet(s, treeId, b)
  {
    if s.reqs != [] {
      if SelectSemantics(s) == AnyOf {
        if PrereqMet(s, treeId, a) {
          var k :| 0 <= k < |s.reqs| && InTree(treeId, a)(s.reqs[k]);
          assert InTree(treeId, b)(s.reqs[k]);
        }
        if PrereqMet(s, treeId, b) {
          var k :| 0 <= k < |s.reqs| && InTree(treeId, b)(s.reqs[k]);
          assert InTree(treeId, a)(s.reqs[k]);
        }
      }
    }
  }

  // ------------------------------------------------------- availability

  /** The ids the availability pass collects: `split("::")[1]` of every
      selected key that starts with `treeId::`. */
  function BareIds(treeId: string, sel: set<string>): set<string> {
    set k | k in sel && StartsWith(k, treeId + "::") && SecondField(k).Some? :: SecondField(k).value
  }

  /** Whether the availability pass marks node `s` of tree `treeId` available:
      it is not selected and its requirements are met among `BareIds`. */
  predicate MarkedAvailable(s: Skill, treeId: string, sel: set<string>) {
    var bare := BareIds(treeId, sel);
    Key(treeId, s.id) !in sel && Meets(s.reqs, SelectSemantics(s), rid => rid in bare)
  }

  /** Every selected key of tree `treeId` is `treeId::id` for an id without `"::"`. */
  predicate KeysWellFormed(treeId: string, sel: set<string>) {
    forall k :: k in sel && StartsWith(k, treeId + "::") ==> NoSep(k[|treeId| + 2..])
  }

  lemma BareIdsExact(treeId: string, sel: set<string>, rid: string)
    requires Plain(treeId) && NoSep(rid) && KeysWellFormed(treeId, sel)
    ensures rid in BareIds(treeId, sel) <==> Key(treeId, rid) in sel
  {
    var key := Key(treeId, rid);
    if key in sel {
      SecondFieldOfKey(treeId, rid);
      assert key[..|treeId| + 2] == treeId + "::";
    }
    if rid in BareIds(treeId, sel) {
      var k :| k in sel && StartsWith(k, treeId + "::") && SecondField(k).Some? && SecondField(k).value == rid;
      PrefixedKey(treeId, k);
    }
  }

  /** A node that is not selected is marked available exactly when the select
      handler would accept its prerequisites, provided ids hold no `"::"`. */
  lemma AvailabilityAgreesWithSelect(s: Skill, treeId: string, sel: set<string>)
    requires Plain(treeId) && KeysWellFormed(treeId, sel)
    requires forall k :: 0 <= k < |s.reqs| ==> NoSep(s.reqs[k])
    ensures MarkedAvailable(s, treeId, sel) <==> Key(treeId, s.id) !in sel && PrereqMet(s, treeId, sel)
  {
    var bare := BareIds(treeId, sel);
    forall k | 0 <= k < |s.reqs|
      ensures (s.reqs[k] in bare) == InTree(treeId, sel)(s.reqs[k])
    {
      BareIdsExact(treeId, sel, s.reqs[k]);
    }
    var byBare: string -> bool := rid => rid in bare;
    if s.reqs != [] && SelectSemantics(s) == AnyOf {
      if SomeHeld(s.reqs, byBare) {
        var k :| 0 <= k < |s.reqs| && byBare(s.reqs[k]);
        assert InTree(treeId, sel)(s.reqs[k]);
      }
      if SomeHeld(s.reqs, InTree(treeId, sel)) {
        var k :| 0 <= k < |s.reqs| && InTree(treeId, sel)(s.reqs[k]);
        assert byBare(s.reqs[k]);
      }
    }
  }

  // ------------------------------------------------------------- lookup

  predicate ValidRef(stores: seq<Store>, r: Ref) {
    r.tree < |stores| && r.index < |stores[r.tree].data|
  }

  function NodeAt(stores: seq<Store>, r: Ref): Skill
    requires ValidRef(stores, r)
  {
    stores[r.tree].data[r.index]
  }

  /** The node objects of tree `t`, in file order. */
  function TreeRefs(stores: seq<Store>, t: nat): (rs: seq<Ref>)
    requires t < |stores|
    ensures |rs| == |stores[t].data|
    ensures forall i :: 0 <= i < |rs| ==> rs[i] == Ref(t, i)
  {
    seq(|stores[t].data|, i requires 0 <= i => Ref(t, i))
  }

  /** Every node object, tree by tree in load order: `flatMap(s => s.data)`. */
  function AllRefs(stores: seq<Store>): (rs: seq<Ref>)
    ensures forall r :: r in rs <==> ValidRef(stores, r)
  {
    if stores == [] then []
    else
      var init := stores[..|stores| - 1];
      assert forall t :: 0 <= t < |init| ==> init[t] == stores[t];
      AllRefs(init) + TreeRefs(stores, |stores| - 1)
  }

  /** The first node with id `id` across all trees in load order, the lookup
      `stores.flatMap(s => s.data).find(n => n.id === id)`. */
  function FirstNode(stores: seq<Store>, id: string): (r: Option<Ref>)
    ensures r.Some? ==> ValidRef(stores, r.value) && NodeAt(stores, r.value).id == id
    ensures r.Some? ==> forall t, j :: 0 <= t < r.value.tree && 0 <= j < |stores[t].data| ==> stores[t].data[j].id != id
    ensures r.Some? ==> forall j :: 0 <= j < r.value.index ==> stores[r.value.tree].data[j].id != id
    ensures r.None? ==> forall t, j :: 0 <= t < |stores| && 0 <= j < |stores[t].data| ==> stores[t].data[j].id != id
  {
    if stores == [] then None
    else match FirstWithId(stores[0].data, id)
      case Some(j) => Some(Ref(0, j))
      case None =>
        match FirstNode(stores[1..], id)
        case None => None
        case Some(r) => Some(Ref(r.tree + 1, r.index))
  }

  /** `stores.find(st => st.treeId === treeId)` */
  function FirstStore(stores: seq<Store>, treeId: string): (r: Option<nat>)
    ensures r.Some? ==> r.value < |stores| && stores[r.value].treeId == treeId
    ensures r.Some? ==> forall t :: 0 <= t < r.value ==> stores[t].treeId != treeId
    ensures r.None? ==> forall t :: 0 <= t < |stores| ==> stores[t].treeId != treeId
  {
    if stores == [] then None
    else if stores[0].treeId == treeId then Some(0)
    else match FirstStore(stores[1..], treeId)
      case None => None
      case Some(t) => Some(t + 1)
  }

  // ---------------------------------------------------------- connectors

  /** `data.find(s => s.id === id)` */
  function FirstWithId(data: seq<Skill>, id: string): (r: Option<nat>)
    ensures r.Some? ==> r.value < |data| && data[r.value].id == id
    ensures r.Some? ==> forall j :: 0 <= j < r.value ==> data[j].id != id
    ensures r.None? ==> forall j :: 0 <= j < |data| ==> data[j].id != id
  {
    if |data| == 0 then None
    else if data[0].id == id then Some(0)
    else match FirstWithId(data[1..], id)
      case None => None
      case Some(j) => Some(j + 1)
  }

  /** A connector from a requirement to the node that requires it. */
  datatype Edge = Edge(from: nat, to: nat)

  /** The connectors of node `j`: one per requirement id that names a node. */
  function EdgesOf(data: seq<Skill>, j: nat, reqs: seq<string>): (r: seq<Edge>)
    ensures forall e :: e in r ==> e.to == j && e.from < |data|
    ensures forall e :: e in r ==> exists rid :: rid in reqs && FirstWithId(data, rid) == Some(e.from)
    ensures forall rid :: rid in reqs && FirstWithId(data, rid).Some? ==> Edge(FirstWithId(data, rid).value, j) in r
  {
    if reqs == [] then []
    else
      var rest := EdgesOf(data, j, reqs[1..]);
      assert reqs[0] in reqs && forall rid :: rid in reqs[1..] ==> rid in reqs;
      match FirstWithId(data, reqs[0])
      case None => rest
      case Some(p) => [Edge(p, j)] + rest
  }

  /** The connectors the layout draws, node by node in file order. */
  function Edges(data: seq<Skill>, upTo: nat): seq<Edge>
    requires upTo <= |data|
  {
    if upTo == 0 then []
    else Edges(data, upTo - 1) + EdgesOf(data, upTo - 1, data[upTo - 1].reqs)
  }

  /** A connector runs from a node to a node of the first `upTo` that
      requires its id. */
  lemma {:induction false} EdgesSound(data: seq<Skill>, upTo: nat, e: Edge)
    requires upTo <= |data|
    ensures e in Edges(data, upTo) ==> e.to < upTo && e.from < |data| && data[e.from].id in data[e.to].reqs
  {
    if upTo > 0 {
      EdgesSound(data, upTo - 1, e);
    }
  }

  /** A requirement of one of the first `upTo` nodes that names a node has its
      connector. */
  lemma {:induction false} EdgesComplete(data: seq<Skill>, upTo: nat, j: nat, rid: string)
    requires j < upTo <= |data| && rid in data[j].reqs && FirstWithId(data, rid).Some?
    ensures Edge(FirstWithId(data, rid).value, j) in Edges(data, upTo)
  {
    if j < upTo - 1 {
      EdgesComplete(data, upTo - 1, j, rid);
    }
  }

  /** A connector is drawn active when both of its ends are selected. */
  predicate EdgeActive(data: seq<Skill>, treeId: string, sel: set<string>, e: Edge)
    requires e.from < |data| && e.to < |data|
  {
    Key(treeId, data[e.from].id) in sel && Key(treeId, data[e.to].id) in sel
  }

  /** A connector is drawn available when the first node carrying its target's
      id is marked available. */
  predicate EdgeAvailable(data: seq<Skill>, treeId: string, sel: set<string>, e: Edge)
    requires e.to < |data|
  {
    var target := FirstWithId(data, data[e.to].id);
    target.Some? && MarkedAvailable(data[target.value], treeId, sel)
  }

  /** An available connector never leads to a selected node, nor is it active. */
  lemma AvailableEdgeNotActive(data: seq<Skill>, treeId: string, sel: set<string>, e: Edge)
    requires e.from < |data| && e.to < |data|
    requires EdgeAvailable(data, treeId, sel, e)
    ensures Key(treeId, data[e.to].id) !in sel && !EdgeActive(data, treeId, sel, e)
  {
  }
}
