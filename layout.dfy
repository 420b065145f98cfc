/** Node positions of one tree (script.js, `layoutAndRender`). Nodes are placed
    depth by depth and, within a depth, lane by lane (offense, shared,
    defense). A node next to already placed parents is put relative to them;
    one without is put in its lane's column and anchored by tier. Every node is
    then spread within its sibling group and moved by its manual offsets. */
module Layout {
  import opened Text
  import opened Skills
  import opened Depths
  import opened Grouping

  datatype Pos = Pos(x: real, y: real)

  const Width: real := 1200.0
  const BaseY: real := 500.0              // the canvas height 700, less 200
  const LevelGap: real := 250.0
  const HorizontalSpacing: real := 70.0
  const VerticalSpacing: real := 110.0
  const BaseOffset: real := 150.0
  const TierLift: real := 500.0           // the extra lift of tiers 2, 3 and 4
  const SharedStack: real := 90.0

  /** `Math.round`: the nearest integer, halves rounded up. */
  function Round(v: real): (r: real)
    ensures r == r.Floor as real
    ensures v - 0.5 < r <= v + 0.5
  {
    (v + 0.5).Floor as real
  }

  // --------------------------------------------------------------- lanes

  /** The three columns of a tree, named after the node types. */
  datatype Lane = Offense | Shared | Defense

  /** A node's lane: its type when that is `offense` or `defense`, else `shared`. */
  function LaneOf(s: Skill): Lane {
    if s.role == "offense" then Offense else if s.role == "defense" then Defense else Shared
  }

  /** The lanes in the order a depth's nodes are placed. */
  const Lanes: seq<Lane> := [Offense, Shared, Defense]

  /** `typeCols`: a lane's column centre as a fraction of the width. */
  function Column(lane: Lane): real {
    match lane
    case Offense => 0.18
    case Shared => 0.5
    case Defense => 0.82
  }

  /** `node.tier || node.Tier || 1` */
  function SelfTier(s: Skill): int {
    NumOr(s.tier, NumOr(s.tierAlt, 1))
  }

  /** The extra lift of a tier 2, 3 or 4 node. */
  function TierExtra(tier: int): real {
    if tier == 2 || tier == 3 || tier == 4 then TierLift else 0.0
  }

  // ------------------------------------------------------------- parents

  /** `parents`: the first node of the tree with each required id, in
      `requires` order, kept only when it is already placed. */
  function PlacedParents(data: seq<Skill>, pos: map<nat, Pos>, reqs: seq<string>): (ps: seq<nat>)
    ensures |ps| <= |reqs|
    ensures forall k :: 0 <= k < |ps| ==> ps[k] in pos && ps[k] < |data|
  {
    if reqs == [] then []
    else
      var rest := PlacedParents(data, pos, reqs[..|reqs| - 1]);
      match FirstWithId(data, reqs[|reqs| - 1])
      case Some(k) => if k in pos then rest + [k] else rest
      case None => rest
  }

  function SumX(pos: map<nat, Pos>, ps: seq<nat>): real
    requires forall k :: 0 <= k < |ps| ==> ps[k] in pos
  {
    if ps == [] then 0.0 else SumX(pos, ps[..|ps| - 1]) + pos[ps[|ps| - 1]].x
  }

  function SumY(pos: map<nat, Pos>, ps: seq<nat>): real
    requires forall k :: 0 <= k < |ps| ==> ps[k] in pos
  {
    if ps == [] then 0.0 else SumY(pos, ps[..|ps| - 1]) + pos[ps[|ps| - 1]].y
  }

  // ----------------------------------------------------------- placement

  /** A `between` node with several placed parents: at their mean x, and at
      their mean y lifted by its tier extra and rounded. */
  function Between(pos: map<nat, Pos>, ps: seq<nat>, tier: int): Pos
    requires |ps| > 0 && forall k :: 0 <= k < |ps| ==> ps[k] in pos
  {
    var n := |ps| as real;
    Pos(SumX(pos, ps) / n, Round(SumY(pos, ps) / n - TierExtra(tier)))
  }

  /** Placement relative to the parent at `p`: a level above it, or beside it
      for the left and right tags, sideways by the node's place in its group. */
  function Beside(p: Pos, tag: string, tier: int, groupIdx: nat): Pos {
    var above := p.y - LevelGap - TierExtra(tier);
    var side := if groupIdx > 0 then groupIdx as real * HorizontalSpacing else 0.0;
    if tag == "upleft" then Pos(p.x - BaseOffset - side, above)
    else if tag == "left" then Pos(p.x - BaseOffset - side, if tier > 1 then above else p.y)
    else if tag == "downleft" then Pos(p.x - BaseOffset - side, if tier > 1 then above else p.y + LevelGap)
    else if tag == "upright" then Pos(p.x + BaseOffset + side, above)
    else if tag == "right" then Pos(p.x + BaseOffset + side, if tier > 1 then above else p.y)
    else if tag == "downright" then Pos(p.x + BaseOffset + side, if tier > 1 then above else p.y + LevelGap)
    else Pos(p.x, above)
  }

  /** The lane's column fallback for node `i` of `count`: evenly spaced over
      at most half the width, on the base line, spread by its group place. */
  function InColumn(lane: Lane, i: nat, count: nat, tag: string, tier: int, groupIdx: nat, groupSize: nat): Pos
    requires i < count
  {
    var cx := Width * Column(lane);
    var groupW := if Width * 0.5 < 300.0 * count as real then Width * 0.5 else 300.0 * count as real;
    var spacing := groupW / (count + 1) as real;
    var startX := cx - groupW / 2.0;
    var x := Round(startX + spacing * (i + 1) as real);
    var g := groupIdx as real;
    if groupSize > 1 && groupIdx > 0 then
      if tag == "up" || tag == "between" then Pos(x, BaseY - (g * VerticalSpacing + TierExtra(tier)))
      else if tag == "upright" || tag == "right" then Pos(x + g * HorizontalSpacing, BaseY)
      else if tag == "upleft" || tag == "left" then Pos(x - g * HorizontalSpacing, BaseY)
      else Pos(x + g * HorizontalSpacing, BaseY)
    else Pos(x, BaseY)
  }

  /** The largest element of a non-empty list. */
  function MaxInt(s: seq<int>): (m: int)
    requires s != []
    ensures forall k :: 0 <= k < |s| ==> s[k] <= m
    ensures exists k :: 0 <= k < |s| && s[k] == m
  {
    if |s| == 1 then s[0]
    else
      var m := MaxInt(s[..|s| - 1]);
      assert forall k :: 0 <= k < |s| - 1 ==> s[..|s| - 1][k] == s[k];
      if s[|s| - 1] > m then s[|s| - 1] else m
  }

  /** `parentTiers`: `tier || 0` of the first node with each required id, 0
      for an id the tree lacks. */
  function ParentTiers(data: seq<Skill>, reqs: seq<string>): (ts: seq<int>)
    ensures |ts| == |reqs|
  {
    if reqs == [] then []
    else
      ParentTiers(data, reqs[..|reqs| - 1]) +
      [match FirstWithId(data, reqs[|reqs| - 1]) case Some(k) => NumOr(data[k].tier, 0) case None => 0]
  }

  /** The tier anchoring base as written: an explicit tier gives 200 per tier
      above the first, and 500 more for tier 2; a node without a tier but with
      requirements reaches `Math.max(...parenttiers)`, a name that is not
      defined, and the pass throws (`None`). */
  function TierBaseAsWritten(s: Skill): Option<int> {
    var t := NumOr(s.tier, 0);
    if t != 0 then Some((t - 1) * 200 + (if s.tier == Some(2) || s.tierAlt == Some(2) then 500 else 0))
    else if s.reqs != [] then None
    else Some(0)
  }

  /** The tier anchoring base as evidently intended: a node without a tier
      takes 200 per tier of its highest-tier requirement. */
  function TierBase(data: seq<Skill>, s: Skill): int {
    var t := NumOr(s.tier, 0);
    if t != 0 then (t - 1) * 200 + (if s.tier == Some(2) || s.tierAlt == Some(2) then 500 else 0)
    else if s.reqs != [] then MaxInt(ParentTiers(data, s.reqs)) * 200
    else 0
  }

  /** The intended base agrees with the code wherever the code does not throw,
      the code throws exactly for untiered nodes with requirements, and there
      the intended base is 200 times the highest requirement tier. */
  lemma TierBaseRepairs(data: seq<Skill>, s: Skill)
    ensures TierBaseAsWritten(s).Some? ==> TierBaseAsWritten(s).value == TierBase(data, s)
    ensures TierBaseAsWritten(s).None? <==> NumOr(s.tier, 0) == 0 && s.reqs != []
    ensures TierBaseAsWritten(s).None? ==>
      (forall k :: 0 <= k < |s.reqs| ==> TierBase(data, s) >= ParentTiers(data, s.reqs)[k] * 200) &&
      (exists k :: 0 <= k < |s.reqs| && TierBase(data, s) == ParentTiers(data, s.reqs)[k] * 200)
  {
    if TierBaseAsWritten(s).None? {
      var ts := ParentTiers(data, s.reqs);
      var m := MaxInt(ts);
      forall k | 0 <= k < |s.reqs| ensures TierBase(data, s) >= ts[k] * 200 {
        assert ts[k] <= m;
      }
      var k :| 0 <= k < |ts| && ts[k] == m;
      assert TierBase(data, s) == ts[k] * 200;
    }
  }

  /** A node with no tier that requires an id its tree lacks. */
  const Orphan: Skill := Skill("orphan", None, "shared", ["missing"], None, None, None, [],
                               None, None, None, None, None, None)

  /** As written, the layout of the one-node tree `[Orphan]` throws: the node
      has no placed parent, so it is anchored by tier, and anchoring an
      untiered node with requirements reads the undefined `parenttiers`. The
      intended base is 0, the tier of the missing requirement being taken as 0. */
  lemma OrphanThrows(pos: map<nat, Pos>)
    ensures PlacedParents([Orphan], pos, Orphan.reqs) == []
    ensures TierBaseAsWritten(Orphan) == None
    ensures TierBase([Orphan], Orphan) == 0
  {
    assert FirstWithId([Orphan], "missing") == None by {
      assert [Orphan][0].id[0] == 'o';
    }
    assert Orphan.reqs[..0] == [];
  }

  /** The grouping pass: later `up` and `between` siblings move up, later left
      and right siblings move further out. */
  function Spread(p: Pos, tag: string, groupIdx: nat, groupSize: nat): Pos {
    var g := groupIdx as real;
    if groupSize > 1 && groupIdx > 0 then
      if tag == "up" || tag == "between" then Pos(p.x, p.y - g * VerticalSpacing)
      else if tag == "upleft" || tag == "left" then Pos(p.x - g * HorizontalSpacing, p.y)
      else if tag == "upright" || tag == "right" then Pos(p.x + g * HorizontalSpacing, p.y)
      else p
    else p
  }

  /** `Number(positionOffsetX || 0)` */
  function OffsetX(s: Skill): real {
    NumOr(s.offsetX, 0) as real
  }

  /** `Number((positionOffsetY ?? positionOffset) || 0)` */
  function OffsetY(s: Skill): real {
    NumOr(if s.offsetY.Some? then s.offsetY else s.offset, 0) as real
  }

  /** One node's turn in the pass: node `node` is number `i` of the `count`
      nodes of lane `lane` at depth `depth`. */
  datatype Slot = Slot(node: nat, depth: nat, lane: Lane, i: nat, count: nat)

  /** What the pass reads of a node besides its parents' positions: its
      requirements, tag, tier, place and size of its group, tier base and
      manual offsets. */
  datatype Facts = Facts(reqs: seq<string>, tag: string, tier: int, groupIdx: nat, groupSize: nat,
                         base: int, dx: real, dy: real)

  function FactsOf(data: seq<Skill>, j: nat): Facts
    requires j < |data|
  {
    var s := data[j];
    Facts(s.reqs, Tag(s), SelfTier(s), GroupIndex(data, j), GroupSize(data, j), TierBase(data, s), OffsetX(s), OffsetY(s))
  }

  /** The facts of the first `n` nodes, computed once before the pass. */
  function NodeFacts(data: seq<Skill>, n: nat): (fs: seq<Facts>)
    requires n <= |data|
    ensures |fs| == n
  {
    if n == 0 then [] else NodeFacts(data, n - 1) + [FactsOf(data, n - 1)]
  }

  lemma {:induction false} NodeFactsAt(data: seq<Skill>, n: nat, j: nat)
    requires j < n <= |data|
    ensures NodeFacts(data, n)[j] == FactsOf(data, j)
  {
    var init := NodeFacts(data, n - 1);
    assert NodeFacts(data, n) == init + [FactsOf(data, n - 1)];
    if j < n - 1 {
      NodeFactsAt(data, n - 1, j);
      assert NodeFacts(data, n)[j] == init[j];
    }
  }

  /** The position the pass gives a node, given the positions so far: beside
      its first placed parent, between its placed parents, or in its lane's
      column and anchored by tier; then spread in its group and offset. */
  function PlaceOne(data: seq<Skill>, facts: seq<Facts>, pos: map<nat, Pos>, sl: Slot): Pos
    requires sl.node < |facts| && sl.i < sl.count
  {
    var f := facts[sl.node];
    var parents := PlacedParents(data, pos, f.reqs);
    var stackY := if sl.lane == Shared && sl.count > 1 && f.tag != "between" then sl.i as real * SharedStack else 0.0;
    var placed :=
      if |parents| > 0 then
        if f.tag == "between" && |parents| > 1 then Between(pos, parents, f.tier)
        else Beside(pos[parents[0]], f.tag, f.tier, f.groupIdx)
      else InColumn(sl.lane, sl.i, sl.count, f.tag, f.tier, f.groupIdx, f.groupSize);
    var anchored :=
      if |parents| > 0 then placed
      else Pos(placed.x, Round(BaseY - f.base as real - sl.depth as real * (LevelGap / 2.0) + stackY));
    var spread := Spread(anchored, f.tag, f.groupIdx, f.groupSize);
    Pos(spread.x + f.dx, spread.y + f.dy)
  }

  /** The parent-relative placement followed by the grouping pass, for the
      node at place `g` of a group of `size`. */
  lemma BesideSpread(p: Pos, tag: string, tier: int, g: nat, size: nat)
    requires g > 0 ==> size > 1
    ensures var above := p.y - LevelGap - TierExtra(tier);
      var r := Spread(Beside(p, tag, tier, g), tag, g, size);
      var gr := g as real;
      (tag == "upleft" || tag == "left" ==> r.x == p.x - 150.0 - 140.0 * gr) &&
      (tag == "downleft" ==> r.x == p.x - 150.0 - 70.0 * gr) &&
      (tag == "upright" || tag == "right" ==> r.x == p.x + 150.0 + 140.0 * gr) &&
      (tag == "downright" ==> r.x == p.x + 150.0 + 70.0 * gr) &&
      (tag !in {"upleft", "left", "downleft", "upright", "right", "downright"} ==> r.x == p.x) &&
      (tag == "upleft" || tag == "upright" ==> r.y == above) &&
      (tag == "left" || tag == "right" ==> r.y == (if tier > 1 then above else p.y)) &&
      (tag == "downleft" || tag == "downright" ==> r.y == (if tier > 1 then above else p.y + 250.0)) &&
      (tag == "up" || tag == "between" ==> r.y == above - 110.0 * gr) &&
      (tag !in {"upleft", "left", "downleft", "upright", "right", "downright", "up", "between"} ==> r.y == above)
  {
  }

  /** What the facts table holds for node `j`: its requirements, tag, tier,
      place and size of its group, tier base and offsets; a node with an
      earlier sibling is in a group of two or more. */
  lemma FactsFields(data: seq<Skill>, j: nat)
    requires j < |data|
    ensures var f := NodeFacts(data, |data|)[j];
      var s := data[j];
      f.reqs == s.reqs && f.tag == Tag(s) && f.tier == SelfTier(s) &&
      f.groupIdx == GroupIndex(data, j) && f.groupSize == GroupSize(data, j) &&
      f.base == TierBase(data, s) && f.dx == OffsetX(s) && f.dy == OffsetY(s) &&
      (f.groupIdx > 0 ==> f.groupSize > 1)
  {
    NodeFactsAt(data, |data|, j);
    GroupIndexBelowSize(data, j);
  }

  /** Parent-relative placement of a node with one placed parent `p` (or
      several, when it is not tagged `between`), after the grouping pass and
      the offsets: left and right variants sit 150 to the side plus 70 per
      earlier sibling (twice that for the ones the grouping pass moves again),
      `up` and untagged nodes stay at the parent's x; the default height is
      250 plus the tier extra above the parent, `left` and `right` keep the
      parent's height and the `down` variants go 250 below it unless the
      node's tier is above 1, and later `up` and `between` siblings rise 110
      each. The facts are the node's own (`FactsFields`). */
  lemma ParentRelative(data: seq<Skill>, facts: seq<Facts>, pos: map<nat, Pos>, sl: Slot)
    requires sl.node < |facts| && sl.i < sl.count
    requires var f := facts[sl.node];
      var ps := PlacedParents(data, pos, f.reqs);
      |ps| > 0 && !(f.tag == "between" && |ps| > 1) && (f.groupIdx > 0 ==> f.groupSize > 1)
    ensures var f := facts[sl.node];
      var tag := f.tag;
      var tier := f.tier;
      var p := pos[PlacedParents(data, pos, f.reqs)[0]];
      var g := f.groupIdx as real;
      var above := p.y - LevelGap - TierExtra(tier);
      var r := PlaceOne(data, facts, pos, sl);
      (tag == "upleft" || tag == "left" ==> r.x == p.x - 150.0 - 140.0 * g + f.dx) &&
      (tag == "downleft" ==> r.x == p.x - 150.0 - 70.0 * g + f.dx) &&
      (tag == "upright" || tag == "right" ==> r.x == p.x + 150.0 + 140.0 * g + f.dx) &&
      (tag == "downright" ==> r.x == p.x + 150.0 + 70.0 * g + f.dx) &&
      (tag !in {"upleft", "left", "downleft", "upright", "right", "downright"} ==> r.x == p.x + f.dx) &&
      (tag == "upleft" || tag == "upright" ==> r.y == above + f.dy) &&
      (tag == "left" || tag == "right" ==> r.y == (if tier > 1 then above else p.y) + f.dy) &&
      (tag == "downleft" || tag == "downright" ==> r.y == (if tier > 1 then above else p.y + 250.0) + f.dy) &&
      (tag == "up" || tag == "between" ==> r.y == above - 110.0 * g + f.dy) &&
      (tag !in {"upleft", "left", "downleft", "upright", "right", "downright", "up", "between"} ==>
        r.y == above + f.dy)
  {
    var f := facts[sl.node];
    BesideSpread(pos[PlacedParents(data, pos, f.reqs)[0]], f.tag, f.tier, f.groupIdx, f.groupSize);
  }

  /** A `between` node with several placed parents sits at their mean x and
      at their rounded mean y lifted by its tier extra, later siblings 110
      higher each, then moved by its offsets. */
  lemma BetweenParents(data: seq<Skill>, facts: seq<Facts>, pos: map<nat, Pos>, sl: Slot)
    requires sl.node < |facts| && sl.i < sl.count
    requires var f := facts[sl.node];
      f.tag == "between" && |PlacedParents(data, pos, f.reqs)| > 1 && (f.groupIdx > 0 ==> f.groupSize > 1)
    ensures var f := facts[sl.node];
      var ps := PlacedParents(data, pos, f.reqs);
      var n := |ps| as real;
      var r := PlaceOne(data, facts, pos, sl);
      r.x == SumX(pos, ps) / n + f.dx &&
      r.y == Round(SumY(pos, ps) / n - TierExtra(f.tier)) - 110.0 * f.groupIdx as real + f.dy
  {
  }

  /** A node without placed parents is anchored by tier: its height is the
      base line less its tier base, less 125 per depth level, plus the shared
      lane's stacking, and its own column spreading in height is discarded;
      only the grouping pass lifts later `up` and `between` siblings. */
  lemma TierAnchored(data: seq<Skill>, facts: seq<Facts>, pos: map<nat, Pos>, sl: Slot)
    requires sl.node < |facts| && sl.i < sl.count
    requires var f := facts[sl.node];
      |PlacedParents(data, pos, f.reqs)| == 0 && (f.groupIdx > 0 ==> f.groupSize > 1)
    ensures var f := facts[sl.node];
      var tag := f.tag;
      var g := f.groupIdx as real;
      var stackY := if sl.lane == Shared && sl.count > 1 && tag != "between" then sl.i as real * 90.0 else 0.0;
      var y0 := Round(500.0 - f.base as real - sl.depth as real * 125.0 + stackY);
      var r := PlaceOne(data, facts, pos, sl);
      r.y == y0 - (if tag == "up" || tag == "between" then 110.0 * g else 0.0) + f.dy
  {
  }

  // ------------------------------------------------------------ the pass

  /** `depths[s.id] || 0` over the first `n` nodes, at most. */
  function MaxDepth(data: seq<Skill>, depths: map<string, nat>, n: nat): nat
    requires n <= |data|
  {
    if n == 0 then 0
    else
      var m := MaxDepth(data, depths, n - 1);
      var d := DepthOf(depths, data[n - 1].id);
      if d > m then d else m
  }

  /** No node of the first `n` lies deeper than `MaxDepth`. */
  lemma {:induction false} MaxDepthBounds(data: seq<Skill>, depths: map<string, nat>, n: nat, j: nat)
    requires j < n <= |data|
    ensures DepthOf(depths, data[j].id) <= MaxDepth(data, depths, n)
  {
    if j < n - 1 {
      MaxDepthBounds(data, depths, n - 1, j);
    }
  }

  /** The nodes of the first `n` that lie at depth `d` in lane `lane`, in file order. */
  function NodesAt(data: seq<Skill>, depths: map<string, nat>, d: nat, lane: Lane, n: nat): (r: seq<nat>)
    requires n <= |data|
  {
    if n == 0 then []
    else
      var rest := NodesAt(data, depths, d, lane, n - 1);
      if DepthOf(depths, data[n - 1].id) == d && LaneOf(data[n - 1]) == lane then rest + [n - 1] else rest
  }

  lemma {:induction false} NodesAtBelow(data: seq<Skill>, depths: map<string, nat>, d: nat, lane: Lane, n: nat)
    requires n <= |data|
    ensures forall k :: 0 <= k < |NodesAt(data, depths, d, lane, n)| ==> NodesAt(data, depths, d, lane, n)[k] < n
  {
    if n > 0 {
      NodesAtBelow(data, depths, d, lane, n - 1);
    }
  }

  lemma {:induction false} NodesAtExact(data: seq<Skill>, depths: map<string, nat>, d: nat, lane: Lane, n: nat, j: nat)
    requires n <= |data|
    ensures j in NodesAt(data, depths, d, lane, n) <==> j < n && DepthOf(depths, data[j].id) == d && LaneOf(data[j]) == lane
  {
    if n > 0 {
      NodesAtExact(data, depths, d, lane, n - 1, j);
    }
  }

  /** A turn for a node below `n`, at a place inside its lane. */
  predicate SlotOk(n: nat, sl: Slot) {
    sl.node < n && sl.i < sl.count
  }

  /** Every turn of `slots` is for a node below `n`, at a place inside its lane. */
  predicate SlotsValid(n: nat, slots: seq<Slot>) {
    slots == [] || (SlotsValid(n, slots[..|slots| - 1]) && SlotOk(n, slots[|slots| - 1]))
  }

  lemma {:induction false} SlotsValidAt(n: nat, slots: seq<Slot>, k: nat)
    requires SlotsValid(n, slots) && k < |slots|
    ensures SlotOk(n, slots[k])
  {
    if k < |slots| - 1 {
      SlotsValidAt(n, slots[..|slots| - 1], k);
    }
  }

  lemma {:induction false} SlotsValidAll(n: nat, slots: seq<Slot>)
    requires forall k :: 0 <= k < |slots| ==> SlotOk(n, slots[k])
    ensures SlotsValid(n, slots)
  {
    if slots != [] {
      var init := slots[..|slots| - 1];
      assert forall k :: 0 <= k < |init| ==> init[k] == slots[k];
      SlotsValidAll(n, init);
    }
  }

  /** The first `m` turns of the nodes `arr`, which share depth `d` and lane `lane`. */
  function SlotsFor(arr: seq<nat>, d: nat, lane: Lane, m: nat): (r: seq<Slot>)
    requires m <= |arr|
    ensures |r| == m
  {
    if m == 0 then [] else SlotsFor(arr, d, lane, m - 1) + [Slot(arr[m - 1], d, lane, m - 1, |arr|)]
  }

  lemma {:induction false} SlotsForAt(arr: seq<nat>, d: nat, lane: Lane, m: nat, i: nat)
    requires i < m <= |arr|
    ensures SlotsFor(arr, d, lane, m)[i] == Slot(arr[i], d, lane, i, |arr|)
  {
    if i < m - 1 {
      SlotsForAt(arr, d, lane, m - 1, i);
    }
  }

  lemma {:induction false} SlotsForValid(arr: seq<nat>, d: nat, lane: Lane, m: nat, n: nat)
    requires m <= |arr| && forall k :: 0 <= k < |arr| ==> arr[k] < n
    ensures SlotsValid(n, SlotsFor(arr, d, lane, m))
  {
    if m > 0 {
      SlotsForValid(arr, d, lane, m - 1, n);
      assert SlotsFor(arr, d, lane, m)[..m - 1] == SlotsFor(arr, d, lane, m - 1);
    }
  }

  /** The turns of lane `lane` at depth `d`. */
  function LaneSlots(data: seq<Skill>, depths: map<string, nat>, d: nat, lane: Lane): (r: seq<Slot>)
  {
    var arr := NodesAt(data, depths, d, lane, |data|);
    SlotsFor(arr, d, lane, |arr|)
  }

  /** The turns of the first `k` lanes at depth `d`. */
  function LanesUpTo(data: seq<Skill>, depths: map<string, nat>, d: nat, k: nat): (r: seq<Slot>)
    requires k <= |Lanes|
  {
    if k == 0 then [] else LanesUpTo(data, depths, d, k - 1) + LaneSlots(data, depths, d, Lanes[k - 1])
  }

  /** The turns of every node at a depth below `upTo`, in the order of the pass. */
  function Order(data: seq<Skill>, depths: map<string, nat>, upTo: nat): (r: seq<Slot>)
  {
    if upTo == 0 then [] else Order(data, depths, upTo - 1) + LanesUpTo(data, depths, upTo - 1, |Lanes|)
  }

  /** Every turn of the pass is for a node of the tree. */
  lemma {:induction false} LanesUpToValid(data: seq<Skill>, depths: map<string, nat>, d: nat, k: nat)
    requires k <= |Lanes|
    ensures SlotsValid(|data|, LanesUpTo(data, depths, d, k))
  {
    if k > 0 {
      LanesUpToValid(data, depths, d, k - 1);
      var arr := NodesAt(data, depths, d, Lanes[k - 1], |data|);
      NodesAtBelow(data, depths, d, Lanes[k - 1], |data|);
      SlotsForValid(arr, d, Lanes[k - 1], |arr|, |data|);
      SlotsValidAppend(|data|, LanesUpTo(data, depths, d, k - 1), LaneSlots(data, depths, d, Lanes[k - 1]));
    }
  }

  lemma {:induction false} OrderValid(data: seq<Skill>, depths: map<string, nat>, upTo: nat)
    ensures SlotsValid(|data|, Order(data, depths, upTo))
  {
    if upTo > 0 {
      OrderValid(data, depths, upTo - 1);
      LanesUpToValid(data, depths, upTo - 1, |Lanes|);
      SlotsValidAppend(|data|, Order(data, depths, upTo - 1), LanesUpTo(data, depths, upTo - 1, |Lanes|));
    }
  }

  /** The nodes that have a turn among `slots`. */
  function Turned(slots: seq<Slot>): set<nat> {
    if slots == [] then {} else Turned(slots[..|slots| - 1]) + {slots[|slots| - 1].node}
  }

  lemma {:induction false} TurnedHas(slots: seq<Slot>, k: nat)
    requires k < |slots|
    ensures slots[k].node in Turned(slots)
  {
    if k < |slots| - 1 {
      TurnedHas(slots[..|slots| - 1], k);
    }
  }

  /** Only nodes below `n` have turns in valid turns. */
  lemma {:induction false} TurnedBelow(n: nat, slots: seq<Slot>)
    requires SlotsValid(n, slots)
    ensures forall j :: j in Turned(slots) ==> j < n
  {
    if slots != [] {
      TurnedBelow(n, slots[..|slots| - 1]);
    }
  }

  lemma {:induction false} TurnedAppend(a: seq<Slot>, b: seq<Slot>)
    ensures Turned(a + b) == Turned(a) + Turned(b)
    decreases |b|
  {
    if b == [] {
      assert a + b == a;
    } else {
      TurnedAppend(a, b[..|b| - 1]);
      assert (a + b)[..|a + b| - 1] == a + b[..|b| - 1];
    }
  }

  /** The kind of a placing step: the position of a turn's node, given the
      positions so far. */
  type Placing = (map<nat, Pos>, Slot) -> Pos

  /** The positions after the turns `slots`, starting from `pos`, a later
      turn seeing the positions the earlier ones gave. */
  function PlaceFrom(place: Placing, pos: map<nat, Pos>, slots: seq<Slot>): map<nat, Pos> {
    if slots == [] then pos
    else
      var before := PlaceFrom(place, pos, slots[..|slots| - 1]);
      var sl := slots[|slots| - 1];
      before[sl.node := place(before, sl)]
  }

  /** The placing step of the pass, for a tree whose nodes have the facts
      `facts`; the pass only takes turns that satisfy `SlotOk` (`OrderValid`),
      so the origin for the others is never used. */
  function Placer(data: seq<Skill>, facts: seq<Facts>): Placing {
    (pos: map<nat, Pos>, sl: Slot) => if SlotOk(|facts|, sl) then PlaceOne(data, facts, pos, sl) else Pos(0.0, 0.0)
  }

  /** One more turn places (or moves) exactly its node. */
  lemma PlaceFromSnoc(place: Placing, pos: map<nat, Pos>, slots: seq<Slot>, sl: Slot)
    ensures var before := PlaceFrom(place, pos, slots);
      PlaceFrom(place, pos, slots + [sl]) == before[sl.node := place(before, sl)]
  {
    assert (slots + [sl])[..|slots|] == slots;
  }

  lemma {:induction false} SlotsValidAppend(n: nat, a: seq<Slot>, b: seq<Slot>)
    requires SlotsValid(n, a) && SlotsValid(n, b)
    ensures SlotsValid(n, a + b)
    decreases |b|
  {
    if b == [] {
      assert a + b == a;
    } else {
      SlotsValidAppend(n, a, b[..|b| - 1]);
      assert (a + b)[..|a + b| - 1] == a + b[..|b| - 1];
    }
  }

  /** Running two lists of turns one after the other is running their concatenation. */
  lemma {:induction false} PlaceFromAppend(place: Placing, pos: map<nat, Pos>, a: seq<Slot>, b: seq<Slot>)
    ensures PlaceFrom(place, pos, a + b) == PlaceFrom(place, PlaceFrom(place, pos, a), b)
    decreases |b|
  {
    if b == [] {
      assert a + b == a;
    } else {
      var init := b[..|b| - 1];
      PlaceFromAppend(place, pos, a, init);
      assert (a + b)[..|a + b| - 1] == a + init;
      assert (a + b)[|a + b| - 1] == b[|b| - 1];
    }
  }

  /** A node is placed after the turns exactly when it was placed before them
      or has a turn among them. */
  lemma {:induction false} PlaceFromKeys(place: Placing, pos: map<nat, Pos>, slots: seq<Slot>, j: nat)
    ensures j in PlaceFrom(place, pos, slots) <==> j in pos || j in Turned(slots)
  {
    if slots != [] {
      PlaceFromKeys(place, pos, slots[..|slots| - 1], j);
    }
  }

  /** Node `j` has a turn among the turns of its own depth, in its own lane. */
  lemma NodeTurnAtDepth(data: seq<Skill>, depths: map<string, nat>, d: nat, j: nat)
    requires j < |data| && d == DepthOf(depths, data[j].id)
    ensures j in Turned(LanesUpTo(data, depths, d, |Lanes|))
  {
    var lane := LaneOf(data[j]);
    var arr := NodesAt(data, depths, d, lane, |data|);
    NodesAtExact(data, depths, d, lane, |data|, j);
    var k :| 0 <= k < |arr| && arr[k] == j;
    SlotsForAt(arr, d, lane, |arr|, k);
    TurnedHas(LaneSlots(data, depths, d, lane), k);
    var u0 := LanesUpTo(data, depths, d, 0);
    var u1 := LanesUpTo(data, depths, d, 1);
    var u2 := LanesUpTo(data, depths, d, 2);
    var u3 := LanesUpTo(data, depths, d, 3);
    var l0 := LaneSlots(data, depths, d, Lanes[0]);
    var l1 := LaneSlots(data, depths, d, Lanes[1]);
    var l2 := LaneSlots(data, depths, d, Lanes[2]);
    assert u1 == u0 + l0;
    assert u2 == u1 + l1;
    assert u3 == u2 + l2;
    TurnedAppend(u0, l0);
    TurnedAppend(u1, l1);
    TurnedAppend(u2, l2);
    assert Turned(u3) == Turned(u0) + Turned(l0) + Turned(l1) + Turned(l2);
  }

  /** The union of the sets `f(0)`, ..., `f(upTo - 1)`. */
  function UnionBelow(f: nat -> set<nat>, upTo: nat): set<nat> {
    if upTo == 0 then {} else UnionBelow(f, upTo - 1) + f(upTo - 1)
  }

  lemma {:induction false} UnionBelowHas(f: nat -> set<nat>, upTo: nat, d: nat, j: nat)
    requires d < upTo && j in f(d)
    ensures j in UnionBelow(f, upTo)
  {
    if d < upTo - 1 {
      UnionBelowHas(f, upTo - 1, d, j);
    }
  }

  /** The nodes with a turn at each level. */
  function LevelTurns(data: seq<Skill>, depths: map<string, nat>): nat -> set<nat> {
    d => Turned(LanesUpTo(data, depths, d, |Lanes|))
  }

  /** The nodes with a turn in the pass below level `upTo` are the nodes with
      a turn at one of those levels. */
  lemma {:induction false} OrderTurned(data: seq<Skill>, depths: map<string, nat>, upTo: nat, j: nat)
    ensures j in Turned(Order(data, depths, upTo)) <==> j in UnionBelow(LevelTurns(data, depths), upTo)
  {
    if upTo > 0 {
      var f := LevelTurns(data, depths);
      OrderTurned(data, depths, upTo - 1, j);
      LevelTurnsStep(data, depths, upTo);
      assert j in UnionBelow(f, upTo) <==> j in UnionBelow(f, upTo - 1) || j in f(upTo - 1);
    }
  }

  /** The turns below level `upTo` are those below level `upTo - 1` and those
      of level `upTo - 1`. */
  lemma LevelTurnsStep(data: seq<Skill>, depths: map<string, nat>, upTo: nat)
    requires upTo > 0
    ensures Turned(Order(data, depths, upTo)) ==
      Turned(Order(data, depths, upTo - 1)) + LevelTurns(data, depths)(upTo - 1)
  {
    TurnedAppend(Order(data, depths, upTo - 1), LanesUpTo(data, depths, upTo - 1, |Lanes|));
  }

  /** Node `j` has a turn at its own depth, in its own lane, so at some level
      below any bound on its depth. */
  lemma NodeHasTurn(data: seq<Skill>, depths: map<string, nat>, upTo: nat, j: nat)
    requires j < |data| && DepthOf(depths, data[j].id) < upTo
    ensures j in UnionBelow(LevelTurns(data, depths), upTo)
  {
    var d := DepthOf(depths, data[j].id);
    NodeTurnAtDepth(data, depths, d, j);
    UnionBelowHas(LevelTurns(data, depths), upTo, d, j);
  }

  /** The pass takes a turn for node `j` exactly when `j` is a node of the tree. */
  lemma TurnIffNode(data: seq<Skill>, depths: map<string, nat>, j: nat)
    ensures j in Turned(Order(data, depths, MaxDepth(data, depths, |data|) + 1)) <==> j < |data|
  {
    var upTo := MaxDepth(data, depths, |data|) + 1;
    var slots := Order(data, depths, upTo);
    OrderValid(data, depths, upTo);
    TurnedBelow(|data|, slots);
    OrderTurned(data, depths, upTo, j);
    if j < |data| {
      MaxDepthBounds(data, depths, |data|, j);
      NodeHasTurn(data, depths, upTo, j);
    }
  }

  /** The pass takes a turn for every node of the tree and for nothing else,
      so it places exactly the nodes of the tree, whatever its placing step. */
  lemma EveryNodePlaced(data: seq<Skill>, depths: map<string, nat>, place: Placing)
    ensures SlotsValid(|data|, Order(data, depths, MaxDepth(data, depths, |data|) + 1))
    ensures var pos := PlaceFrom(place, map[], Order(data, depths, MaxDepth(data, depths, |data|) + 1));
      forall j: nat :: j in pos <==> j < |data|
  {
    var slots := Order(data, depths, MaxDepth(data, depths, |data|) + 1);
    OrderValid(data, depths, MaxDepth(data, depths, |data|) + 1);
    forall j: nat
      ensures j in PlaceFrom(place, map[], slots) <==> j < |data|
    {
      PlaceFromKeys(place, map[], slots, j);
      TurnIffNode(data, depths, j);
    }
  }

  /** Taking the turn of node `arr[i]` continues the lane. */
  lemma SlotStep(place: Placing, arr: seq<nat>, depth: nat, lane: Lane, i: nat, pos0: map<nat, Pos>)
    requires i < |arr|
    ensures var before := PlaceFrom(place, pos0, SlotsFor(arr, depth, lane, i));
      var sl := Slot(arr[i], depth, lane, i, |arr|);
      PlaceFrom(place, pos0, SlotsFor(arr, depth, lane, i + 1)) == before[arr[i] := place(before, sl)]
  {
    PlaceFromSnoc(place, pos0, SlotsFor(arr, depth, lane, i), Slot(arr[i], depth, lane, i, |arr|));
  }

  /** The inner loop of the pass: the nodes of one lane at one depth, in file order. */
  method PlaceLane(place: Placing, data: seq<Skill>, depths: map<string, nat>, depth: nat,
                   lane: Lane, pos0: map<nat, Pos>) returns (pos: map<nat, Pos>)
    ensures pos == PlaceFrom(place, pos0, LaneSlots(data, depths, depth, lane))
  {
    var arr := NodesAt(data, depths, depth, lane, |data|);
    pos := pos0;
    for i := 0 to |arr|
      invariant pos == PlaceFrom(place, pos0, SlotsFor(arr, depth, lane, i))
    {
      pos := pos[arr[i] := place(pos, Slot(arr[i], depth, lane, i, |arr|))];
      SlotStep(place, arr, depth, lane, i, pos0);
    }
  }

  /** Placing one more lane continues the level. */
  lemma LaneStep(place: Placing, data: seq<Skill>, depths: map<string, nat>, depth: nat, k: nat,
                 pos0: map<nat, Pos>, pos1: map<nat, Pos>, pos: map<nat, Pos>)
    requires k < |Lanes|
    requires pos1 == PlaceFrom(place, pos0, LanesUpTo(data, depths, depth, k))
    requires pos == PlaceFrom(place, pos1, LaneSlots(data, depths, depth, Lanes[k]))
    ensures pos == PlaceFrom(place, pos0, LanesUpTo(data, depths, depth, k + 1))
  {
    PlaceFromAppend(place, pos0, LanesUpTo(data, depths, depth, k), LaneSlots(data, depths, depth, Lanes[k]));
  }

  /** The middle loop of the pass: the lanes of one depth, in lane order. */
  method PlaceDepth(place: Placing, data: seq<Skill>, depths: map<string, nat>, depth: nat,
                    pos0: map<nat, Pos>) returns (pos: map<nat, Pos>)
    ensures pos == PlaceFrom(place, pos0, LanesUpTo(data, depths, depth, |Lanes|))
  {
    pos := pos0;
    for k := 0 to |Lanes|
      invariant pos == PlaceFrom(place, pos0, LanesUpTo(data, depths, depth, k))
    {
      ghost var before := pos;
      pos := PlaceLane(place, data, depths, depth, Lanes[k], pos);
      LaneStep(place, data, depths, depth, k, pos0, before, pos);
    }
  }

  /** Placing one more level continues the pass. */
  lemma LevelStep(place: Placing, data: seq<Skill>, depths: map<string, nat>, depth: nat, pos0: map<nat, Pos>, pos: map<nat, Pos>)
    requires pos0 == PlaceFrom(place, map[], Order(data, depths, depth))
    requires pos == PlaceFrom(place, pos0, LanesUpTo(data, depths, depth, |Lanes|))
    ensures pos == PlaceFrom(place, map[], Order(data, depths, depth + 1))
  {
    PlaceFromAppend(place, map[], Order(data, depths, depth), LanesUpTo(data, depths, depth, |Lanes|));
  }

  /** The placing pass over the levels `0..maxDepth`, each level lane by lane. */
  method PlaceLevels(place: Placing, data: seq<Skill>, depths: map<string, nat>, maxDepth: nat)
    returns (pos: map<nat, Pos>)
    ensures pos == PlaceFrom(place, map[], Order(data, depths, maxDepth + 1))
  {
    pos := map[];
    for depth := 0 to maxDepth + 1
      invariant pos == PlaceFrom(place, map[], Order(data, depths, depth))
    {
      ghost var before := pos;
      pos := PlaceDepth(place, data, depths, depth, pos);
      LevelStep(place, data, depths, depth, before, pos);
    }
  }

  /** The first pass: the deepest level of the tree. */
  method Deepest(data: seq<Skill>, depths: map<string, nat>) returns (maxDepth: nat)
    ensures maxDepth == MaxDepth(data, depths, |data|)
  {
    maxDepth := 0;
    var j := 0;
    while j < |data|
      invariant 0 <= j <= |data|
      invariant maxDepth == MaxDepth(data, depths, j)
    {
      var d := DepthOf(depths, data[j].id);
      if d > maxDepth {
        maxDepth := d;
      }
      j := j + 1;
    }
  }

  /** The position passes of `layoutAndRender`: find the deepest level, then
      place the nodes level by level, lane by lane, in file order, each seeing
      the positions of the nodes placed before it. */
  method Layout(data: seq<Skill>, depths: map<string, nat>) returns (pos: map<nat, Pos>)
    ensures pos == PlaceFrom(Placer(data, NodeFacts(data, |data|)), map[],
                             Order(data, depths, MaxDepth(data, depths, |data|) + 1))
  {
    var maxDepth := Deepest(data, depths);
    ghost var slots := Order(data, depths, maxDepth + 1);
    assert slots == Order(data, depths, MaxDepth(data, depths, |data|) + 1);
    pos := PlaceLevels(Placer(data, NodeFacts(data, |data|)), data, depths, maxDepth);
  }
}
