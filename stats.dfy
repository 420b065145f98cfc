/** The character sheet derived from the selected nodes (script.js,
    `computeCharStats` and its `rankToDie`): additive pool, cap, focus and
    observation deltas, and the best attack and defence die. */
module Stats {
  import opened Text
  import opened Skills

  // ---------------------------------------------------------------- dice

  /** `dieRank[val]` for the six die labels. */
  function DieRank(val: string): (r: Option<nat>)
    ensures r.Some? ==> r.value in {1, 2, 4, 6, 8, 10}
  {
    if val == "d1" then Some(1)
    else if val == "d2" then Some(2)
    else if val == "d4" then Some(4)
    else if val == "d6" then Some(6)
    else if val == "d8" then Some(8)
    else if val == "d10" then Some(10)
    else None
  }

  /** `rankToDie(v)`: the label of a die rank, `-` for 0 and for any rank
      that is not one of the six dice. */
  function RankToDie(v: nat): (r: string)
    ensures r == "-" <==> v !in {1, 2, 4, 6, 8, 10}
    ensures r != "-" ==> DieRank(r) == Some(v)
  {
    if v == 1 then "d1"
    else if v == 2 then "d2"
    else if v == 4 then "d4"
    else if v == 6 then "d6"
    else if v == 8 then "d8"
    else if v == 10 then "d10"
    else "-"
  }

  lemma LabelRoundTrip(val: string)
    requires DieRank(val).Some?
    ensures RankToDie(DieRank(val).value) == val
  {
  }

  predicate IsDigit(c: char) {
    '0' <= c <= '9'
  }

  /** `replace(/[^0-9]/g, '')` */
  function Digits(s: string): (r: string)
    ensures |r| <= |s|
    ensures forall k :: 0 <= k < |r| ==> IsDigit(r[k])
  {
    if s == [] then []
    else if IsDigit(s[0]) then [s[0]] + Digits(s[1..])
    else Digits(s[1..])
  }

  /** `replace(/[^0-9]/g, '')` works piece by piece: the digits of a
      concatenation are the digits of each part, in order. */
  lemma {:induction false} DigitsAppend(a: string, b: string)
    ensures Digits(a + b) == Digits(a) + Digits(b)
    decreases |a|
  {
    if a != [] {
      assert (a + b)[0] == a[0] && (a + b)[1..] == a[1..] + b;
      DigitsAppend(a[1..], b);
    } else {
      assert a + b == b;
    }
  }

  /** A string of digits only is kept whole. */
  lemma {:induction false} DigitsKeep(s: string)
    requires forall k :: 0 <= k < |s| ==> IsDigit(s[k])
    ensures Digits(s) == s
    decreases |s|
  {
    if s != [] {
      DigitsKeep(s[1..]);
      assert s == [s[0]] + s[1..];
    }
  }

  /** A non-digit character is dropped. */
  lemma DigitsDrop(c: char)
    requires !IsDigit(c)
    ensures Digits([c]) == []
  {
    assert [c][1..] == [];
  }

  /** The decimal value of a string of digits, as `parseInt` reads it. */
  function DecimalValue(ds: string): nat
    requires forall k :: 0 <= k < |ds| ==> IsDigit(ds[k])
  {
    if ds == [] then 0
    else
      assert IsDigit(ds[|ds| - 1]);
      DecimalValue(ds[..|ds| - 1]) * 10 + (ds[|ds| - 1] as int - '0' as int)
  }

  /** The rank of a die value: a die label's own rank; otherwise the number its
      digits spell, or 1 when there are no digits or they spell 0. */
  function Rank(val: string): (r: nat)
    ensures r >= 1
    ensures DieRank(val).Some? ==> r == DieRank(val).value
    ensures DieRank(val).None? && DecimalValue(Digits(val)) != 0 ==> r == DecimalValue(Digits(val))
    ensures DieRank(val).None? && DecimalValue(Digits(val)) == 0 ==> r == 1
  {
    match DieRank(val)
    case Some(k) => k
    case None =>
      var ds := Digits(val);
      if ds != [] && DecimalValue(ds) != 0 then DecimalValue(ds) else 1
  }

  /** A value that is not a die label and holds no digit ranks 1. */
  lemma NoDigitsRanksOne(val: string)
    requires DieRank(val).None? && forall k :: 0 <= k < |val| ==> !IsDigit(val[k])
    ensures Rank(val) == 1
  {
    NoDigitsVanish(val);
  }

  lemma {:induction false} NoDigitsVanish(s: string)
    requires forall k :: 0 <= k < |s| ==> !IsDigit(s[k])
    ensures Digits(s) == []
  {
    if s != [] {
      NoDigitsVanish(s[1..]);
    }
  }

  // --------------------------------------------------------- accumulator

  /** The running totals: pool, the two caps, focus and observation deltas, and
      the best attack and defence ranks seen so far. */
  datatype Acc = Acc(pool: int, capAttack: int, capDefend: int, focus: int, obs: int,
                     bestAttack: nat, bestDefend: nat)

  const Zero: Acc := Acc(0, 0, 0, 0, 0, 0, 0)

  function Max(a: nat, b: nat): nat {
    if a < b then b else a
  }

  /** Totals side by side: deltas add up, best ranks take the larger. */
  function Plus(a: Acc, b: Acc): Acc {
    Acc(a.pool + b.pool, a.capAttack + b.capAttack, a.capDefend + b.capDefend,
        a.focus + b.focus, a.obs + b.obs, Max(a.bestAttack, b.bestAttack), Max(a.bestDefend, b.bestDefend))
  }

  /** `Plus` is a commutative monoid with unit `Zero`, so a selection may be
      visited in any order. */
  lemma PlusLaws(a: Acc, b: Acc, c: Acc)
    ensures Plus(a, b) == Plus(b, a)
    ensures Plus(Plus(a, b), c) == Plus(a, Plus(b, c))
    ensures Plus(a, Zero) == a
  {
  }

  /** The starting totals: `basePool`, and `baseCap` for both caps. */
  function Start(basePool: int, baseCap: int): Acc {
    Acc(basePool, baseCap, baseCap, 0, 0, 0, 0)
  }

  /** One effect applied to the totals; `chosen` is the node's stored pool choice. */
  function Apply(acc: Acc, e: Effect, chosen: Option<int>): Acc {
    var t := Lower(OrElse(e.kind, ""));
    var delta := e.delta.GetOr(0);
    if OrElse(e.kind, "") == "" then acc
    else if t == "pool_choice" then
      acc.(pool := acc.pool + (if chosen.Some? then chosen.value else NumOr(e.defaultValue, 5)))
    else if t == "pool" then acc.(pool := acc.pool + delta)
    else if t == "cap" then acc.(capAttack := acc.capAttack + delta, capDefend := acc.capDefend + delta)
    else if t == "cap_attack" then acc.(capAttack := acc.capAttack + delta)
    else if t == "cap_defend" then acc.(capDefend := acc.capDefend + delta)
    else if t == "dice" then
      var slot := Lower(OrElse(e.slot, "both"));
      var rank := Rank(OrElse(e.value, ""));
      acc.(bestAttack := if slot == "attack" || slot == "both" then Max(acc.bestAttack, rank) else acc.bestAttack,
           bestDefend := if slot == "defend" || slot == "both" then Max(acc.bestDefend, rank) else acc.bestDefend)
    else if t == "dice_attack" then acc.(bestAttack := Max(acc.bestAttack, Rank(OrElse(e.value, ""))))
    else if t == "dice_defend" then acc.(bestDefend := Max(acc.bestDefend, Rank(OrElse(e.value, ""))))
    else if t == "focus_modifier" then acc.(focus := acc.focus + delta)
    else if t == "observation_range" then acc.(obs := acc.obs + delta)
    else acc
  }

  /** Applying an effect adds what it contributes on its own. */
  lemma ApplyIsPlus(acc: Acc, e: Effect, chosen: Option<int>)
    ensures Apply(acc, e, chosen) == Plus(acc, Apply(Zero, e, chosen))
  {
  }

  /** The effects of one node, applied in order. */
  function ApplyAll(acc: Acc, effs: seq<Effect>, chosen: Option<int>): Acc {
    if effs == [] then acc
    else Apply(ApplyAll(acc, effs[..|effs| - 1], chosen), effs[|effs| - 1], chosen)
  }

  /** A node's effects add the same to any running totals. */
  lemma {:induction false} ApplyAllIsPlus(acc: Acc, effs: seq<Effect>, chosen: Option<int>)
    ensures ApplyAll(acc, effs, chosen) == Plus(acc, ApplyAll(Zero, effs, chosen))
    decreases |effs|
  {
    if effs != [] {
      var init := effs[..|effs| - 1];
      var last := effs[|effs| - 1];
      ApplyAllIsPlus(acc, init, chosen);
      ApplyAllIsPlus(Zero, init, chosen);
      var a := ApplyAll(acc, init, chosen);
      var z := ApplyAll(Zero, init, chosen);
      var e := Apply(Zero, last, chosen);
      ApplyIsPlus(a, last, chosen);
      ApplyIsPlus(z, last, chosen);
      PlusLaws(acc, z, e);
      PlusLaws(Zero, z, Zero);
    }
  }

  // ------------------------------------------------------------ the sheet

  /** The node a selection key stands for: its bare id `split('::')[1]`,
      looked up across all trees. */
  function NodeOfKey(stores: seq<Store>, key: string): (r: Option<Ref>)
    ensures r.Some? ==> ValidRef(stores, r.value)
  {
    match SecondField(key)
    case None => None
    case Some(sid) => FirstNode(stores, sid)
  }

  /** What one selected key contributes. */
  function Contrib(stores: seq<Store>, poolChoice: map<Ref, int>, key: string): Acc {
    match NodeOfKey(stores, key)
    case None => Zero
    case Some(r) =>
      ApplyAll(Zero, NodeAt(stores, r).effects, if r in poolChoice then Some(poolChoice[r]) else None)
  }

  lemma RemoveShrinks(s: set<string>, x: string)
    requires x in s
    ensures |s - {x}| < |s|
  {
  }

  /** The contributions of a set of keys, in any order. */
  ghost function Total(stores: seq<Store>, poolChoice: map<Ref, int>, sel: set<string>): Acc {
    if sel == {} then Zero
    else
      var k :| k in sel;
      Plus(Total(stores, poolChoice, sel - {k}), Contrib(stores, poolChoice, k))
  }

  /** Any key may be taken out first: the total does not depend on the order
      the selection is visited in. */
  lemma {:induction false} TotalRemove(stores: seq<Store>, poolChoice: map<Ref, int>, sel: set<string>, k: string)
    requires k in sel
    ensures Total(stores, poolChoice, sel) == Plus(Total(stores, poolChoice, sel - {k}), Contrib(stores, poolChoice, k))
    decreases |sel|
  {
    var j :| j in sel && Total(stores, poolChoice, sel) == Plus(Total(stores, poolChoice, sel - {j}), Contrib(stores, poolChoice, j));
    if j != k {
      var rest := sel - {j} - {k};
      assert sel - {k} - {j} == rest;
      TotalRemove(stores, poolChoice, sel - {j}, k);
      TotalRemove(stores, poolChoice, sel - {k}, j);
      var t := Total(stores, poolChoice, rest);
      var cj := Contrib(stores, poolChoice, j);
      var ck := Contrib(stores, poolChoice, k);
      PlusLaws(t, ck, cj);
      PlusLaws(t, cj, ck);
      PlusLaws(ck, cj, Zero);
    }
  }

  /** The sheet `computeCharStats` returns. */
  datatype Sheet = Sheet(pool: int, capAttack: int, capDefend: int, diceAttack: string, diceDefend: string,
                         focusMod: int, obsRange: int)

  function SheetOf(acc: Acc): Sheet {
    Sheet(acc.pool, acc.capAttack, acc.capDefend, RankToDie(acc.bestAttack), RankToDie(acc.bestDefend),
          acc.focus, acc.obs)
  }

  /** The sheet for a selection, as a function of the stores, the stored pool
      choices and the two base values. */
  ghost function CharStats(stores: seq<Store>, poolChoice: map<Ref, int>, sel: set<string>,
                           basePool: int, baseCap: int): Sheet {
    SheetOf(Plus(Start(basePool, baseCap), Total(stores, poolChoice, sel)))
  }

  /** Visiting one key moves its contribution from the unvisited rest into the
      running totals. */
  lemma VisitStep(stores: seq<Store>, poolChoice: map<Ref, int>, rest: set<string>, key: string, acc: Acc)
    requires key in rest
    ensures Plus(Plus(acc, Contrib(stores, poolChoice, key)), Total(stores, poolChoice, rest - {key}))
      == Plus(acc, Total(stores, poolChoice, rest))
  {
    var c := Contrib(stores, poolChoice, key);
    var t := Total(stores, poolChoice, rest - {key});
    TotalRemove(stores, poolChoice, rest, key);
    PlusLaws(acc, c, t);
    PlusLaws(c, t, Zero);
  }

  /** The inner `effects.forEach` of `computeCharStats`: one node's effects
      applied to the running totals, which grow by that node's contribution. */
  method ApplyEffects(acc: Acc, effs: seq<Effect>, chosen: Option<int>) returns (out: Acc)
    ensures out == Plus(acc, ApplyAll(Zero, effs, chosen))
  {
    out := acc;
    var i := 0;
    while i < |effs|
      invariant 0 <= i <= |effs|
      invariant out == ApplyAll(acc, effs[..i], chosen)
    {
      assert effs[..i + 1][..i] == effs[..i];
      out := Apply(out, effs[i], chosen);
      i := i + 1;
    }
    assert effs[..i] == effs;
    ApplyAllIsPlus(acc, effs, chosen);
  }

  /** `computeCharStats(basePool, baseCap)`: visits every selected key and
      applies the effects of its node. */
  method ComputeCharStats(stores: seq<Store>, poolChoice: map<Ref, int>, sel: set<string>,
                          basePool: int, baseCap: int) returns (sheet: Sheet)
    ensures sheet == CharStats(stores, poolChoice, sel, basePool, baseCap)
  {
    var acc := Start(basePool, baseCap);
    var rest := sel;
    while rest != {}
      invariant Plus(acc, Total(stores, poolChoice, rest)) == Plus(Start(basePool, baseCap), Total(stores, poolChoice, sel))
      decreases |rest|
    {
      var key :| key in rest;
      var node := NodeOfKey(stores, key);
      var next := acc;
      if node.Some? {
        var r := node.value;
        next := ApplyEffects(acc, NodeAt(stores, r).effects, if r in poolChoice then Some(poolChoice[r]) else None);
      } else {
        PlusLaws(acc, Zero, Zero);
      }
      VisitStep(stores, poolChoice, rest, key, acc);
      RemoveShrinks(rest, key);
      acc := next;
      rest := rest - {key};
    }
    sheet := SheetOf(acc);
  }

  // ----------------------------------------------------------- properties

  /** With nothing selected the sheet is the base values and no dice. */
  lemma EmptySelection(stores: seq<Store>, poolChoice: map<Ref, int>, basePool: int, baseCap: int)
    ensures CharStats(stores, poolChoice, {}, basePool, baseCap) ==
      Sheet(basePool, baseCap, baseCap, "-", "-", 0, 0)
  {
  }

  /** Selecting one more key adds exactly that key's contribution. */
  lemma SelectAdds(stores: seq<Store>, poolChoice: map<Ref, int>, sel: set<string>, k: string)
    requires k !in sel
    ensures Total(stores, poolChoice, sel + {k}) == Plus(Total(stores, poolChoice, sel), Contrib(stores, poolChoice, k))
  {
    TotalRemove(stores, poolChoice, sel + {k}, k);
    assert sel + {k} - {k} == sel;
  }

  /** Keys whose bare id names no node leave the sheet as it is. */
  lemma {:induction false} StaleKeysIgnored(stores: seq<Store>, poolChoice: map<Ref, int>, sel: set<string>, stale: set<string>)
    requires forall k :: k in stale ==> NodeOfKey(stores, k).None?
    ensures Total(stores, poolChoice, sel) == Total(stores, poolChoice, sel - stale)
    decreases |sel|
  {
    if k :| k in sel && k in stale {
      var smaller := sel - {k};
      RemoveShrinks(sel, k);
      assert smaller - stale == sel - stale;
      assert Contrib(stores, poolChoice, k) == Zero;
      TotalRemove(stores, poolChoice, sel, k);
      PlusLaws(Total(stores, poolChoice, smaller), Zero, Zero);
      StaleKeysIgnored(stores, poolChoice, smaller, stale);
    } else {
      assert sel - stale == sel;
    }
  }

  /** A `cap` delta raises both caps alike; `cap_attack` and `cap_defend`
      raise one each. */
  lemma CapEffects(acc: Acc, d: int, chosen: Option<int>)
    ensures Apply(acc, Effect(Some("cap"), Some(d), None, None, None), chosen) ==
      acc.(capAttack := acc.capAttack + d, capDefend := acc.capDefend + d)
    ensures Apply(acc, Effect(Some("cap_attack"), Some(d), None, None, None), chosen) ==
      acc.(capAttack := acc.capAttack + d)
    ensures Apply(acc, Effect(Some("cap_defend"), Some(d), None, None, None), chosen) ==
      acc.(capDefend := acc.capDefend + d)
  {
    LowerKeeps("cap");
    LowerKeeps("cap_attack");
    LowerKeeps("cap_defend");
  }

  /** A pool choice without a stored value adds the effect's default, and a
      default of 0 counts as missing, so it adds 5. */
  lemma PoolChoiceDefault(acc: Acc, def: Option<int>)
    ensures Apply(acc, Effect(Some("pool_choice"), None, None, None, def), None).pool ==
      acc.pool + (if def.Some? && def.value != 0 then def.value else 5)
    ensures Apply(acc, Effect(Some("pool_choice"), None, None, None, Some(0)), None).pool == acc.pool + 5
  {
  }

  /** Dice keep the larger rank: a `d4` and then a `d6` on both slots leave `d6`
      on both, in either order; a `dice` effect without a slot counts for both. */
  lemma DiceTakeMax(chosen: Option<int>)
    ensures var d4 := Effect(Some("dice"), None, Some("d4"), None, None);
      var d6 := Effect(Some("dice"), None, Some("d6"), None, None);
      var a := Apply(Apply(Zero, d4, chosen), d6, chosen);
      var b := Apply(Apply(Zero, d6, chosen), d4, chosen);
      a == b && RankToDie(a.bestAttack) == "d6" && RankToDie(a.bestDefend) == "d6"
  {
    LowerKeeps("dice");
    LowerKeeps("both");
  }

  /** A dice effect never lowers a best rank, and afterwards the best rank is
      at least the effect's rank on every slot it names. */
  lemma DiceNeverLower(acc: Acc, e: Effect, chosen: Option<int>)
    requires Lower(OrElse(e.kind, "")) == "dice" && OrElse(e.kind, "") != ""
    ensures var r := Apply(acc, e, chosen);
      r.bestAttack >= acc.bestAttack && r.bestDefend >= acc.bestDefend &&
      (Lower(OrElse(e.slot, "both")) in {"attack", "both"} ==> r.bestAttack >= Rank(OrElse(e.value, ""))) &&
      (Lower(OrElse(e.slot, "both")) in {"defend", "both"} ==> r.bestDefend >= Rank(OrElse(e.value, "")))
  {
  }
}
