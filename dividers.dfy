/** The tier dividers of a tree (script.js, end of `layoutAndRender`): for
    every tier that some node states explicitly, a line 60 below the lowest
    node of that tier (the largest y) and a label 18 above the line, drawn in
    ascending tier order. */
module Dividers {
  import opened Text
  import opened Skills
  import opened Layout

  /** A divider line of tier `tier`, labelled `Tier <tier>`. */
  datatype Divider = Divider(tier: int, lineY: real, labelY: real)

  const LineGap: real := 60.0
  const LabelRise: real := 18.0

  /** Every node of the tree has a position. */
  predicate Placed(data: seq<Skill>, pos: map<nat, Pos>) {
    forall j: nat :: j < |data| ==> j in pos
  }

  /** `tierBoundaries[t].maxY` over the first `n` nodes: the largest y of the
      nodes whose own `tier` field is `t`; nodes without the field are skipped. */
  function Bounds(data: seq<Skill>, pos: map<nat, Pos>, n: nat): map<int, real>
    requires n <= |data| && Placed(data, pos)
  {
    if n == 0 then map[]
    else
      var b := Bounds(data, pos, n - 1);
      var y := pos[n - 1].y;
      match data[n - 1].tier
      case None => b
      case Some(t) => b[t := if t in b && b[t] > y then b[t] else y]
  }

  /** A tier has a bound exactly when some node states it; the bound is at
      least the y of every node of the tier and is the y of one of them. */
  lemma {:induction false} BoundsExact(data: seq<Skill>, pos: map<nat, Pos>, n: nat, t: int)
    requires n <= |data| && Placed(data, pos)
    ensures t in Bounds(data, pos, n) <==> exists j :: 0 <= j < n && data[j].tier == Some(t)
    ensures t in Bounds(data, pos, n) ==>
      (forall j :: 0 <= j < n && data[j].tier == Some(t) ==> pos[j].y <= Bounds(data, pos, n)[t]) &&
      (exists j :: 0 <= j < n && data[j].tier == Some(t) && pos[j].y == Bounds(data, pos, n)[t])
  {
    if n > 0 {
      BoundsExact(data, pos, n - 1, t);
      var b := Bounds(data, pos, n - 1);
      if data[n - 1].tier == Some(t) {
        if t in b && b[t] > pos[n - 1].y {
          var j :| 0 <= j < n - 1 && data[j].tier == Some(t) && pos[j].y == b[t];
        }
      }
    }
  }

  /** The first pass: the per-tier bounds, node by node. */
  method TierBounds(data: seq<Skill>, pos: map<nat, Pos>) returns (bounds: map<int, real>)
    requires Placed(data, pos)
    ensures bounds == Bounds(data, pos, |data|)
  {
    bounds := map[];
    var j := 0;
    while j < |data|
      invariant 0 <= j <= |data|
      invariant bounds == Bounds(data, pos, j)
    {
      var y := pos[j].y;
      match data[j].tier {
        case None =>
        case Some(t) =>
          if !(t in bounds) || y >= bounds[t] {
            bounds := bounds[t := y];
          }
      }
      j := j + 1;
    }
  }

  /** Strictly ascending: the order `sort((a, b) => a - b)` gives distinct keys. */
  predicate Ascending(s: seq<int>) {
    forall i, k :: 0 <= i < k < |s| ==> s[i] < s[k]
  }

  /** A value below every element of an ascending list can go in front. */
  lemma AscendingCons(x: int, s: seq<int>)
    requires Ascending(s) && forall u :: u in s ==> x < u
    ensures Ascending([x] + s)
  {
    forall i, k | 0 <= i < k < |s| + 1
      ensures ([x] + s)[i] < ([x] + s)[k]
    {
      assert ([x] + s)[k] == s[k - 1] && s[k - 1] in s;
      if i > 0 {
        assert ([x] + s)[i] == s[i - 1];
      }
    }
  }

  /** `t` put in its place in an ascending list, kept once. */
  function InsertTier(t: int, s: seq<int>): (r: seq<int>)
    requires Ascending(s)
    ensures Ascending(r)
    ensures forall u :: u in r <==> u in s || u == t
  {
    if s == [] then [t]
    else if t < s[0] then [t] + s
    else if t == s[0] then s
    else
      var rest := InsertTier(t, s[1..]);
      assert s == [s[0]] + s[1..];
      assert forall u :: u in s[1..] ==> s[0] < u;
      AscendingCons(s[0], rest);
      [s[0]] + rest
  }

  /** The dividers of a tree, in ascending tier order: exactly one per tier
      that some node states, each 60 below the largest y of its tier, with its
      label 18 above the line. */
  method TierDividers(data: seq<Skill>, pos: map<nat, Pos>) returns (ds: seq<Divider>)
    requires Placed(data, pos)
    ensures forall i, k :: 0 <= i < k < |ds| ==> ds[i].tier < ds[k].tier
    ensures forall k :: 0 <= k < |ds| ==>
      ds[k].tier in Bounds(data, pos, |data|) &&
      ds[k].lineY == Bounds(data, pos, |data|)[ds[k].tier] + 60.0 &&
      ds[k].labelY == ds[k].lineY - 18.0
    ensures forall t :: t in Bounds(data, pos, |data|) ==> exists k :: 0 <= k < |ds| && ds[k].tier == t
  {
    var bounds := TierBounds(data, pos);
    var tiers: seq<int> := [];
    for j := 0 to |data|
      invariant Ascending(tiers)
      invariant forall u :: u in tiers <==> exists i :: 0 <= i < j && data[i].tier == Some(u)
    {
      match data[j].tier {
        case None =>
        case Some(t) => tiers := InsertTier(t, tiers);
      }
    }
    forall u | u in tiers || u in bounds
      ensures u in tiers <==> u in bounds
    {
      BoundsExact(data, pos, |data|, u);
    }
    ds := [];
    for k := 0 to |tiers|
      invariant |ds| == k
      invariant forall i :: 0 <= i < k ==>
        ds[i].tier == tiers[i] && ds[i].lineY == bounds[tiers[i]] + LineGap && ds[i].labelY == ds[i].lineY - LabelRise
    {
      var lineY := bounds[tiers[k]] + LineGap;
      ds := ds + [Divider(tiers[k], lineY, lineY - LabelRise)];
    }
    forall t | t in bounds
      ensures exists k :: 0 <= k < |ds| && ds[k].tier == t
    {
      var k :| 0 <= k < |tiers| && tiers[k] == t;
      assert ds[k].tier == t;
    }
  }
}
