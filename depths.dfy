/** Dependency depth of the nodes of one tree (script.js, `computeDepths`):
    a memoised recursion over `requires` that guards each path with the set
    of ids it is inside, so that it also ends on cyclic requirements. */
module Depths {
  import opened Text
  import opened Skills

  /** `byId`: each id's requirements, taken from the last node that carries it. */
  function ById(data: seq<Skill>): map<string, seq<string>> {
    if data == [] then map[]
    else ById(data[..|data| - 1])[data[|data| - 1].id := data[|data| - 1].reqs]
  }

  /** `byId` knows exactly the ids of the tree, and a repeated id keeps the
      requirements of its last node. */
  lemma {:induction false} ByIdLastWins(data: seq<Skill>)
    ensures ById(data).Keys == set j | 0 <= j < |data| :: data[j].id
    ensures forall j :: 0 <= j < |data| && (forall k :: j < k < |data| ==> data[k].id != data[j].id) ==>
      ById(data)[data[j].id] == data[j].reqs
  {
    if data != [] {
      var init := data[..|data| - 1];
      ByIdLastWins(init);
      assert forall j :: 0 <= j < |init| ==> init[j] == data[j];
    }
  }

  /** An id the recursion answers with 0 at once: unknown, or with no requirements. */
  predicate Leaf(byId: map<string, seq<string>>, id: string) {
    id !in byId || byId[id] == []
  }

  /** The largest element, 0 for the empty sequence. */
  function MaxOf(s: seq<nat>): nat {
    if s == [] then 0
    else
      var m := MaxOf(s[..|s| - 1]);
      if s[|s| - 1] > m then s[|s| - 1] else m
  }

  /** `MaxOf` bounds every element and is one of them. */
  lemma {:induction false} MaxOfIsMax(s: seq<nat>)
    ensures forall k :: 0 <= k < |s| ==> s[k] <= MaxOf(s)
    ensures s != [] ==> exists k :: 0 <= k < |s| && s[k] == MaxOf(s)
  {
    if s != [] {
      var init := s[..|s| - 1];
      MaxOfIsMax(init);
      assert forall k :: 0 <= k < |s| - 1 ==> init[k] == s[k];
      if init != [] && s[|s| - 1] <= MaxOf(init) {
        var k :| 0 <= k < |init| && init[k] == MaxOf(init);
        assert s[k] == MaxOf(s);
      } else {
        assert s[|s| - 1] == MaxOf(s);
      }
    }
  }

  /** A ranking under which every known requirement of a known id ranks lower:
      the requirements are acyclic. */
  ghost predicate Ranked(byId: map<string, seq<string>>, rank: map<string, nat>) {
    byId.Keys <= rank.Keys &&
    forall id, r :: id in byId && r in byId[id] && r in byId ==> rank[r] < rank[id]
  }

  /** The depth an acyclic requirement graph gives an id: 0 for a leaf, else one
      more than its deepest requirement. */
  ghost function TrueDepth(byId: map<string, seq<string>>, rank: map<string, nat>, id: string): nat
    requires Ranked(byId, rank)
    decreases if id in byId then rank[id] + 1 else 0
  {
    if Leaf(byId, id) then 0
    else 1 + MaxOf(TrueDepths(byId, rank, id, byId[id]))
  }

  ghost function TrueDepths(byId: map<string, seq<string>>, rank: map<string, nat>, parent: string, reqs: seq<string>): (r: seq<nat>)
    requires Ranked(byId, rank) && parent in byId && reqs <= byId[parent]
    ensures |r| == |reqs|
    decreases rank[parent] + 1, |reqs|
  {
    if reqs == [] then []
    else
      var init := reqs[..|reqs| - 1];
      assert init <= byId[parent];
      assert reqs[|reqs| - 1] == byId[parent][|reqs| - 1];
      TrueDepths(byId, rank, parent, init) + [TrueDepth(byId, rank, reqs[|reqs| - 1])]
  }

  lemma TrueDepthsAt(byId: map<string, seq<string>>, rank: map<string, nat>, parent: string, reqs: seq<string>, k: nat)
    requires Ranked(byId, rank) && parent in byId && reqs <= byId[parent] && k < |reqs|
    ensures TrueDepths(byId, rank, parent, reqs)[k] == TrueDepth(byId, rank, reqs[k])
    decreases |reqs|
  {
    if k < |reqs| - 1 {
      var init := reqs[..|reqs| - 1];
      assert init <= byId[parent];
      TrueDepthsAt(byId, rank, parent, init, k);
    }
  }

  /** A node with requirements lies deeper than each of them and exactly one
      level below the deepest. */
  lemma TrueDepthStep(byId: map<string, seq<string>>, rank: map<string, nat>, id: string)
    requires Ranked(byId, rank) && !Leaf(byId, id)
    ensures forall k :: 0 <= k < |byId[id]| ==> TrueDepth(byId, rank, byId[id][k]) < TrueDepth(byId, rank, id)
    ensures exists k :: 0 <= k < |byId[id]| && TrueDepth(byId, rank, id) == 1 + TrueDepth(byId, rank, byId[id][k])
  {
    var reqs := byId[id];
    var ds := TrueDepths(byId, rank, id, reqs);
    forall k | 0 <= k < |reqs|
      ensures ds[k] == TrueDepth(byId, rank, reqs[k])
    {
      TrueDepthsAt(byId, rank, id, reqs, k);
    }
    MaxOfIsMax(ds);
    var k :| 0 <= k < |ds| && ds[k] == MaxOf(ds);
    assert TrueDepth(byId, rank, id) == 1 + TrueDepth(byId, rank, reqs[k]);
  }

  /** Every id on the recursion path ranks above `id`. */
  ghost predicate StackAbove(byId: map<string, seq<string>>, rank: map<string, nat>, stack: set<string>, id: string) {
    id in byId ==> id in rank && forall s :: s in stack ==> s in rank && rank[s] > rank[id]
  }

  lemma StackAboveStep(byId: map<string, seq<string>>, rank: map<string, nat>, stack: set<string>, id: string, k: nat)
    requires Ranked(byId, rank) && id in byId && k < |byId[id]| && StackAbove(byId, rank, stack, id)
    ensures StackAbove(byId, rank, stack + {id}, byId[id][k])
  {
  }

  /** The running maximum over the first `i + 1` requirements. */
  lemma TrueDepthsGrow(byId: map<string, seq<string>>, rank: map<string, nat>, id: string, i: nat)
    requires Ranked(byId, rank) && id in byId && i < |byId[id]|
    ensures var reqs := byId[id];
      var m := MaxOf(TrueDepths(byId, rank, id, reqs[..i]));
      var v := TrueDepth(byId, rank, reqs[i]);
      MaxOf(TrueDepths(byId, rank, id, reqs[..i + 1])) == if v > m then v else m
  {
    var reqs := byId[id];
    assert reqs[..i + 1][..i] == reqs[..i];
  }

  /** Memoising the true depth of `id` keeps every memoised value true. */
  lemma MemoTrueExtend(byId: map<string, seq<string>>, rank: map<string, nat>, memo: map<string, nat>, id: string)
    requires Ranked(byId, rank) && forall k :: k in memo ==> memo[k] == TrueDepth(byId, rank, k)
    ensures forall k :: k in memo[id := TrueDepth(byId, rank, id)] ==> memo[id := TrueDepth(byId, rank, id)][k] == TrueDepth(byId, rank, k)
  {
  }

  /** The recursion's answers for `reqs`, read back from the memo: an id's
      memoised depth, or 0 for an id that was answered on the path and so
      never memoised. */
  function Answers(memo: map<string, nat>, reqs: seq<string>): seq<nat> {
    if reqs == [] then []
    else
      var last := reqs[|reqs| - 1];
      Answers(memo, reqs[..|reqs| - 1]) + [if last in memo then memo[last] else 0]
  }

  /** One more requirement's answer joins the running maximum. */
  lemma AnswersGrow(memo: map<string, nat>, reqs: seq<string>, i: nat)
    requires i < |reqs|
    ensures var m := MaxOf(Answers(memo, reqs[..i]));
      var v := if reqs[i] in memo then memo[reqs[i]] else 0;
      MaxOf(Answers(memo, reqs[..i + 1])) == if v > m then v else m
  {
    assert reqs[..i + 1][..i] == reqs[..i];
  }

  /** The answers stay the same when the memo only gains ids of `path`'s
      complement and every requirement it lacks lies on `path`. */
  lemma {:induction false} AnswersFrame(memo: map<string, nat>, memo': map<string, nat>, reqs: seq<string>, path: set<string>)
    requires forall k :: k in memo ==> k in memo' && memo'[k] == memo[k]
    requires forall k :: k in memo' && k !in memo ==> k !in path
    requires forall k :: 0 <= k < |reqs| && reqs[k] !in memo ==> reqs[k] in path
    ensures Answers(memo', reqs) == Answers(memo, reqs)
    decreases |reqs|
  {
    if reqs != [] {
      AnswersFrame(memo, memo', reqs[..|reqs| - 1], path);
    }
  }

  /** The `memo` object of one `computeDepths` call. */
  class DepthResolver {
    const byId: map<string, seq<string>>
    var memo: map<string, nat>

    constructor (byId: map<string, seq<string>>)
      ensures this.byId == byId && memo == map[]
    {
      this.byId := byId;
      memo := map[];
    }

    /** A memoised 0 is exactly a leaf. */
    ghost predicate MemoSound()
      reads this
    {
      forall id :: id in memo ==> (memo[id] == 0 <==> Leaf(byId, id))
    }

    /** On acyclic requirements every memoised value is the true depth. */
    ghost predicate MemoTrue(rank: map<string, nat>)
      reads this
    {
      Ranked(byId, rank) ==> forall id :: id in memo ==> memo[id] == TrueDepth(byId, rank, id)
    }

    /** `depth(id, stack)`; `rank` is a proof device that only matters when the
        requirements are acyclic. */
    method Depth(id: string, stack: set<string>, ghost rank: map<string, nat>) returns (d: nat)
      requires MemoSound()
      requires forall s :: s in stack ==> !Leaf(byId, s)
      modifies this
      ensures MemoSound()
      ensures forall k :: k in old(memo) ==> k in memo && memo[k] == old(memo)[k]
      ensures forall k :: k in memo && k !in old(memo) ==> k !in stack
      ensures id in old(memo) ==> d == old(memo)[id] && memo == old(memo)
      ensures id !in old(memo) && Leaf(byId, id) ==> d == 0 && memo == old(memo)[id := 0]
      ensures id !in old(memo) && !Leaf(byId, id) && id in stack ==> d == 0 && memo == old(memo)
      ensures id !in old(memo) && !Leaf(byId, id) && id !in stack ==> d >= 1 && id in memo && memo[id] == d
      ensures id !in old(memo) && !Leaf(byId, id) && id !in stack ==> d == 1 + MaxOf(Answers(memo - {id}, byId[id]))
      ensures (id in memo && memo[id] == d) || (id !in memo && id in stack && d == 0)
      ensures old(MemoTrue(rank)) && Ranked(byId, rank) && StackAbove(byId, rank, stack, id) ==>
        MemoTrue(rank) && d == TrueDepth(byId, rank, id)
      decreases byId.Keys - stack, 1
    {
      if id in memo {
        return memo[id];
      }
      if Leaf(byId, id) {
        memo := memo[id := 0];
        return 0;
      }
      if id in stack {
        return 0;
      }
      ghost var acyclic := MemoTrue(rank) && Ranked(byId, rank) && StackAbove(byId, rank, stack, id);
      var best := ReqsDepth(id, stack, rank);
      d := 1 + best;
      if acyclic {
        MemoTrueExtend(byId, rank, memo, id);
      }
      ghost var inner := memo;
      memo := memo[id := d];
      assert memo - {id} == inner;
    }

    /** `Math.max(...s.requires.map(r => depth(r, new Set(stack))))` with `id`
        added to the path. */
    method ReqsDepth(id: string, stack: set<string>, ghost rank: map<string, nat>) returns (best: nat)
      requires MemoSound() && !Leaf(byId, id) && id !in stack && id !in memo
      requires forall s :: s in stack ==> !Leaf(byId, s)
      modifies this
      ensures MemoSound()
      ensures forall k :: k in old(memo) ==> k in memo && memo[k] == old(memo)[k]
      ensures forall k :: k in memo && k !in old(memo) ==> k !in stack && k != id
      ensures best == MaxOf(Answers(memo, byId[id]))
      ensures forall k :: 0 <= k < |byId[id]| && byId[id][k] !in memo ==> byId[id][k] in stack || byId[id][k] == id
      ensures old(MemoTrue(rank)) && Ranked(byId, rank) && StackAbove(byId, rank, stack, id) ==>
        MemoTrue(rank) && best == MaxOf(TrueDepths(byId, rank, id, byId[id]))
      decreases byId.Keys - stack, 0
    {
      var inner := stack + {id};
      var reqs := byId[id];
      ghost var acyclic := MemoTrue(rank) && Ranked(byId, rank) && StackAbove(byId, rank, stack, id);
      best := 0;
      for i := 0 to |reqs|
        invariant MemoSound()
        invariant forall k :: k in old(memo) ==> k in memo && memo[k] == old(memo)[k]
        invariant forall k :: k in memo && k !in old(memo) ==> k !in inner
        invariant acyclic ==> MemoTrue(rank)
        invariant acyclic ==> best == MaxOf(TrueDepths(byId, rank, id, reqs[..i]))
        invariant best == MaxOf(Answers(memo, reqs[..i]))
        invariant forall k :: 0 <= k < i && reqs[k] !in memo ==> reqs[k] in inner
      {
        if acyclic {
          StackAboveStep(byId, rank, stack, id, i);
          TrueDepthsGrow(byId, rank, id, i);
        }
        ghost var before := memo;
        var v := Depth(reqs[i], inner, rank);
        AnswersFrame(before, memo, reqs[..i], inner);
        AnswersGrow(memo, reqs, i);
        if v > best {
          best := v;
        }
      }
      assert reqs[..|reqs|] == reqs;
    }
  }

  /** `computeDepths(data)`: the memo after asking for every node's depth. */
  method ComputeDepths(data: seq<Skill>, ghost rank: map<string, nat>) returns (depths: map<string, nat>)
    ensures forall j :: 0 <= j < |data| ==> data[j].id in depths
    ensures forall id :: id in depths ==> (depths[id] == 0 <==> Leaf(ById(data), id))
    ensures Ranked(ById(data), rank) ==> forall id :: id in depths ==> depths[id] == TrueDepth(ById(data), rank, id)
  {
    var byId := ById(data);
    var resolver := new DepthResolver(byId);
    var j := 0;
    while j < |data|
      invariant 0 <= j <= |data|
      invariant resolver.byId == byId
      invariant resolver.MemoSound() && resolver.MemoTrue(rank)
      invariant forall k :: 0 <= k < j ==> data[k].id in resolver.memo
      modifies resolver
    {
      ghost var before := resolver.memo;
      var _ := resolver.Depth(data[j].id, {}, rank);
      assert data[j].id in resolver.memo;
      assert forall k :: 0 <= k < j ==> data[k].id in before;
      j := j + 1;
    }
    depths := resolver.memo;
  }

  /** `depths[id] || 0` */
  function DepthOf(depths: map<string, nat>, id: string): nat {
    if id in depths then depths[id] else 0
  }
}
