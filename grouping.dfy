/** The sibling groups of the layout pass (script.js, `layoutAndRender`):
    nodes whose sorted requirement ids, joined with `|`, and lower-cased
    position tag agree form one group, and a node's place in its group
    spreads it away from its siblings. */
module Grouping {
  import opened Text
  import opened Skills

  /** The default order of `Array.prototype.sort` on strings: code unit by
      code unit, a proper prefix first. */
  predicate StrLe(a: string, b: string)
    decreases |a|
  {
    a == [] || (b != [] && (a[0] < b[0] || (a[0] == b[0] && StrLe(a[1..], b[1..]))))
  }

  lemma StrLeReflexive(a: string)
    ensures StrLe(a, a)
    decreases |a|
  {
    if a != [] {
      StrLeReflexive(a[1..]);
    }
  }

  lemma StrLeTotal(a: string, b: string)
    ensures StrLe(a, b) || StrLe(b, a)
    decreases |a|
  {
    if a != [] && b != [] && a[0] == b[0] {
      StrLeTotal(a[1..], b[1..]);
    }
  }

  lemma StrLeAntisymmetric(a: string, b: string)
    requires StrLe(a, b) && StrLe(b, a)
    ensures a == b
    decreases |a|
  {
    if a != [] {
      StrLeAntisymmetric(a[1..], b[1..]);
      assert a == [a[0]] + a[1..] && b == [b[0]] + b[1..];
    }
  }

  lemma StrLeTransitive(a: string, b: string, c: string)
    requires StrLe(a, b) && StrLe(b, c)
    ensures StrLe(a, c)
    decreases |a|
  {
    if a != [] && b[0] == c[0] && a[0] == b[0] {
      StrLeTransitive(a[1..], b[1..], c[1..]);
    }
  }

  predicate Sorted(s: seq<string>) {
    forall i, j :: 0 <= i < j < |s| ==> StrLe(s[i], s[j])
  }

  function Insert(x: string, s: seq<string>): (r: seq<string>)
    requires Sorted(s)
    ensures Sorted(r) && multiset(r) == multiset(s) + multiset{x}
    ensures |r| == |s| + 1
  {
    if s == [] then [x]
    else if StrLe(x, s[0]) then
      forall j | 0 < j < |s| ensures StrLe(x, s[j]) {
        StrLeTransitive(x, s[0], s[j]);
      }
      [x] + s
    else
      StrLeTotal(x, s[0]);
      var rest := Insert(x, s[1..]);
      assert s == [s[0]] + s[1..];
      forall j | 0 <= j < |rest| ensures StrLe(s[0], rest[j]) {
        assert rest[j] in multiset(rest);
        assert rest[j] == x || rest[j] in multiset(s[1..]);
      }
      [s[0]] + rest
  }

  /** `requires.slice().sort()` */
  function SortStrings(s: seq<string>): (r: seq<string>)
    ensures Sorted(r) && multiset(r) == multiset(s)
  {
    if s == [] then []
    else
      assert s == s[..|s| - 1] + [s[|s| - 1]];
      Insert(s[|s| - 1], SortStrings(s[..|s| - 1]))
  }

  /** The head of a sorted list comes first among all its elements. */
  lemma SortedHeadFirst(a: seq<string>, x: string)
    requires Sorted(a) && x in multiset(a)
    ensures StrLe(a[0], x)
  {
    var k :| 0 <= k < |a| && a[k] == x;
    if k == 0 {
      StrLeReflexive(x);
    }
  }

  lemma SortedTail(a: seq<string>)
    requires Sorted(a) && a != []
    ensures Sorted(a[1..])
  {
    forall i, j | 0 <= i < j < |a| - 1
      ensures StrLe(a[1..][i], a[1..][j])
    {
      assert a[1..][i] == a[i + 1] && a[1..][j] == a[j + 1];
    }
  }

  /** Two sorted lists of the same strings start with the same string. */
  lemma SortedSameHead(a: seq<string>, b: seq<string>)
    requires Sorted(a) && Sorted(b) && multiset(a) == multiset(b) && a != []
    ensures b != [] && a[0] == b[0]
  {
    assert a[0] in multiset(a);
    assert b != [];
    assert b[0] in multiset(b);
    SortedHeadFirst(a, b[0]);
    SortedHeadFirst(b, a[0]);
    StrLeAntisymmetric(a[0], b[0]);
  }

  /** Dropping the head of a list drops one copy of it from its multiset. */
  lemma MultisetTail(a: seq<string>)
    requires a != []
    ensures multiset(a[1..]) == multiset(a) - multiset{a[0]}
  {
    assert a == [a[0]] + a[1..];
  }

  /** Two sorted lists of the same strings are the same list. */
  lemma {:induction false} SortedUnique(a: seq<string>, b: seq<string>)
    requires Sorted(a) && Sorted(b) && multiset(a) == multiset(b)
    ensures a == b
    decreases |a|
  {
    if a != [] {
      SortedSameHead(a, b);
      MultisetTail(a);
      MultisetTail(b);
      SortedTail(a);
      SortedTail(b);
      SortedUnique(a[1..], b[1..]);
      assert a == [a[0]] + a[1..] && b == [b[0]] + b[1..];
    }
  }

  /** `parts.join(sep)` */
  function Join(parts: seq<string>, sep: string): string {
    if parts == [] then ""
    else if |parts| == 1 then parts[0]
    else Join(parts[..|parts| - 1], sep) + sep + parts[|parts| - 1]
  }

  /** `${requires.slice().sort().join('|')}::${tag}` */
  function GroupKey(s: Skill): string {
    Join(SortStrings(s.reqs), "|") + "::" + Tag(s)
  }

  /** The group of a node depends on which ids it requires, not on the order
      its file lists them in. */
  lemma GroupKeyOrderFree(s: Skill, t: Skill)
    requires multiset(s.reqs) == multiset(t.reqs) && Tag(s) == Tag(t)
    ensures GroupKey(s) == GroupKey(t)
  {
    SortedUnique(SortStrings(s.reqs), SortStrings(t.reqs));
  }

  /** `[f(0), ..., f(n - 1)]`: a per-node table computed once, in file order. */
  function Tabulate<T>(n: nat, f: nat --> T): (r: seq<T>)
    requires forall j: nat :: j < n ==> f.requires(j)
    ensures |r| == n
  {
    if n == 0 then [] else Tabulate(n - 1, f) + [f(n - 1)]
  }

  lemma {:induction false} TabulateAt<T>(n: nat, f: nat --> T, j: nat)
    requires forall k: nat :: k < n ==> f.requires(k)
    requires j < n
    ensures Tabulate(n, f)[j] == f(j)
  {
    if j < n - 1 {
      TabulateAt(n - 1, f, j);
    }
  }

  function KeyAt(data: seq<Skill>): nat --> string {
    (j: nat) requires j < |data| => GroupKey(data[j])
  }

  /** The group keys of the nodes, in file order. */
  function GroupKeys(data: seq<Skill>): seq<string> {
    Tabulate(|data|, KeyAt(data))
  }

  lemma GroupKeysAt(data: seq<Skill>, j: nat)
    requires j < |data|
    ensures GroupKeys(data)[j] == GroupKey(data[j])
  {
    TabulateAt(|data|, KeyAt(data), j);
  }

  /** How many of the first `n` keys are `key`. */
  function CountIn(keys: seq<string>, key: string, n: nat): (c: nat)
    requires n <= |keys|
    ensures c <= n
  {
    if n == 0 then 0
    else CountIn(keys, key, n - 1) + (if keys[n - 1] == key then 1 else 0)
  }

  /** `groupArr.indexOf(node)`: the node's place among the nodes of its group,
      which the grouping map lists in file order. */
  function GroupIndex(data: seq<Skill>, j: nat): nat
    requires j < |data|
  {
    var keys := GroupKeys(data);
    CountIn(keys, keys[j], j)
  }

  /** `groupArr.length` */
  function GroupSize(data: seq<Skill>, j: nat): nat
    requires j < |data|
  {
    var keys := GroupKeys(data);
    CountIn(keys, keys[j], |data|)
  }

  lemma {:induction false} CountInGrows(keys: seq<string>, key: string, m: nat, n: nat)
    requires m <= n <= |keys|
    ensures CountIn(keys, key, m) <= CountIn(keys, key, n)
    decreases n
  {
    if m < n {
      CountInGrows(keys, key, m, n - 1);
    }
  }

  /** A node's place in its group is below the group's size; a node with an
      earlier sibling (index above 0) is in a group of two or more. */
  lemma GroupIndexBelowSize(data: seq<Skill>, j: nat)
    requires j < |data|
    ensures GroupIndex(data, j) < GroupSize(data, j)
    ensures GroupIndex(data, j) > 0 ==> GroupSize(data, j) > 1
  {
    var keys := GroupKeys(data);
    CountInGrows(keys, keys[j], j + 1, |data|);
  }

  /** Nodes of one group take distinct places in it, in file order. */
  lemma GroupIndexOrdered(data: seq<Skill>, i: nat, j: nat)
    requires i < j < |data| && GroupKey(data[i]) == GroupKey(data[j])
    ensures GroupIndex(data, i) < GroupIndex(data, j)
  {
    var keys := GroupKeys(data);
    var key := keys[j];
    GroupKeysAt(data, i);
    GroupKeysAt(data, j);
    assert CountIn(keys, key, i + 1) == CountIn(keys, key, i) + 1;
    CountInGrows(keys, key, i + 1, j);
  }
}
