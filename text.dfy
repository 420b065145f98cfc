/** Strings as the skill-graph engine handles them: JavaScript's `||` on strings
    that may be absent, lower-casing, the `\s+` whitespace runs of node names,
    and the `"treeId::skillId"` keys of the selection set. */
module Text {

  datatype Option<+T> = None | Some(value: T) {
    function GetOr(fallback: T): T {
      match this
      case Some(v) => v
      case None => fallback
    }
  }

  /** `s || fallback` for a string field that may be missing: a missing and an
      empty string are both falsy. */
  function OrElse(s: Option<string>, fallback: string): string {
    if s.Some? && s.value != "" then s.value else fallback
  }

  /** `n || fallback` for a numeric field that may be missing: 0 is falsy. */
  function NumOr(n: Option<int>, fallback: int): int {
    if n.Some? && n.value != 0 then n.value else fallback
  }

  function LowerChar(c: char): char {
    if 'A' <= c <= 'Z' then (c as int + 32) as char else c
  }

  /** `toLowerCase()`, on the ASCII letters. */
  function Lower(s: string): (r: string)
    ensures |r| == |s|
    ensures forall k :: 0 <= k < |s| ==> r[k] == LowerChar(s[k])
  {
    seq(|s|, k requires 0 <= k < |s| => LowerChar(s[k]))
  }

  lemma LowerIdempotent(s: string)
    ensures Lower(Lower(s)) == Lower(s)
  {
  }

  /** A string without upper-case letters is its own lower case. */
  lemma LowerKeeps(s: string)
    requires forall k :: 0 <= k < |s| ==> !('A' <= s[k] <= 'Z')
    ensures Lower(s) == s
  {
  }

  /** The characters JavaScript's regular-expression class `\s` matches. */
  predicate IsSpace(c: char) {
    c == ' ' || c == '\t' || c == '\n' || c == '\r' || c == '\U{B}' || c == '\U{C}'
    || c == '\U{A0}' || c == '\U{1680}' || ('\U{2000}' <= c <= '\U{200A}')
    || c == '\U{2028}' || c == '\U{2029}' || c == '\U{202F}' || c == '\U{205F}'
    || c == '\U{3000}' || c == '\U{FEFF}'
  }

  predicate Spaceless(s: string) {
    forall k :: 0 <= k < |s| ==> !IsSpace(s[k])
  }

  /** Drops the whitespace run at the front of `s`. */
  function SkipSpaces(s: string): (r: string)
    ensures |r| <= |s| && r == s[|s| - |r|..]
    ensures r == [] || !IsSpace(r[0])
    ensures s != [] && IsSpace(s[0]) ==> |r| < |s|
  {
    if s != [] && IsSpace(s[0]) then SkipSpaces(s[1..]) else s
  }

  /** `replace(/\s+/g, "_")`: every maximal whitespace run becomes one `_`. */
  function Underscored(s: string): string
    decreases |s|
  {
    if s == [] then []
    else if IsSpace(s[0]) then "_" + Underscored(SkipSpaces(s))
    else [s[0]] + Underscored(s[1..])
  }

  lemma SpacelessCons(c: char, s: string)
    requires !IsSpace(c) && Spaceless(s)
    ensures Spaceless([c] + s)
  {
    forall k | 0 < k < |s| + 1
      ensures !IsSpace(([c] + s)[k])
    {
      assert ([c] + s)[k] == s[k - 1];
    }
  }

  lemma UnderscoredSpaceFront(s: string)
    requires s != [] && IsSpace(s[0])
    ensures Underscored(s) == "_" + Underscored(SkipSpaces(s))
  {
  }

  lemma UnderscoredKeepFront(s: string)
    requires s != [] && !IsSpace(s[0])
    ensures Underscored(s) == [s[0]] + Underscored(s[1..])
  {
  }

  lemma {:induction false} UnderscoredIsSpaceless(s: string)
    ensures Spaceless(Underscored(s))
    decreases |s|
  {
    if s == [] {
    } else if IsSpace(s[0]) {
      var tail := SkipSpaces(s);
      UnderscoredIsSpaceless(tail);
      UnderscoredSpaceFront(s);
      SpacelessCons('_', Underscored(tail));
    } else {
      UnderscoredIsSpaceless(s[1..]);
      UnderscoredKeepFront(s);
      SpacelessCons(s[0], Underscored(s[1..]));
    }
  }


  lemma {:induction false} UnderscoredKeepsSpaceless(s: string)
    requires Spaceless(s)
    ensures Underscored(s) == s
    decreases |s|
  {
    if s != [] {
      UnderscoredKeepsSpaceless(s[1..]);
    }
  }

  /** The id a node gets when its record has none: its lower-cased name with
      whitespace runs turned into `_`. */
  function Slug(name: string): (r: string)
    ensures Spaceless(r)
  {
    UnderscoredIsSpaceless(Lower(name));
    Underscored(Lower(name))
  }

  // ---------------------------------------------------------------- keys

  /** The selection key of node `id` of tree `treeId`. */
  function Key(treeId: string, id: string): string {
    treeId + "::" + id
  }

  /** No colon at all: the tree ids `armament-tree`, `observation-tree`, ... */
  predicate Plain(s: string) {
    forall k :: 0 <= k < |s| ==> s[k] != ':'
  }

  predicate SepAt(s: string, k: int) {
    0 <= k && k + 1 < |s| && s[k] == ':' && s[k + 1] == ':'
  }

  /** `s` holds no `"::"`. */
  predicate NoSep(s: string) {
    forall k :: 0 <= k < |s| ==> !SepAt(s, k)
  }

  predicate StartsWith(s: string, prefix: string) {
    |prefix| <= |s| && s[..|prefix|] == prefix
  }

  /** Keys of tree `treeId` are told apart from keys of any other ':'-free tree id. */
  lemma KeyInjective(t1: string, a: string, t2: string, b: string)
    requires Plain(t1) && Plain(t2)
    requires Key(t1, a) == Key(t2, b)
    ensures t1 == t2 && a == b
  {
    var s := Key(t1, a);
    assert s[|t1|] == ':' && s[|t2|] == ':';
    assert t1 == s[..|t1|] == t2;
    assert a == s[|t1| + 2..] == b;
  }

  /** Within one tree, keys are told apart by their skill ids. */
  lemma KeyCancel(t: string, a: string, b: string)
    requires Key(t, a) == Key(t, b)
    ensures a == b
  {
    assert a == Key(t, a)[|t| + 2..] == b;
  }

  /** The first `"::"` at or after `from`. */
  function FindSep(s: string, from: nat): (r: Option<nat>)
    requires from <= |s|
    ensures r.Some? ==> from <= r.value && SepAt(s, r.value)
    ensures forall k :: from <= k && (r.None? || k < r.value) ==> !SepAt(s, k)
    decreases |s| - from
  {
    if from + 1 >= |s| then None
    else if SepAt(s, from) then Some(from)
    else FindSep(s, from + 1)
  }

  /** `s.split("::")[1]`: the text between the first and the second `"::"`,
      or `undefined` when `s` holds no `"::"`. */
  function SecondField(s: string): Option<string> {
    match FindSep(s, 0)
    case None => None
    case Some(i) =>
      var rest := s[i + 2..];
      match FindSep(rest, 0)
      case None => Some(rest)
      case Some(j) => Some(rest[..j])
  }

  lemma FirstSepOfKey(t: string, a: string)
    requires Plain(t)
    ensures FindSep(Key(t, a), 0) == Some(|t|)
  {
    var s := Key(t, a);
    assert SepAt(s, |t|);
    forall k | 0 <= k < |t|
      ensures !SepAt(s, k)
    {
      assert s[k] == t[k];
    }
  }

  /** Splitting a key of a ':'-free tree id gives back the skill id. */
  lemma SecondFieldOfKey(t: string, a: string)
    requires Plain(t) && NoSep(a)
    ensures SecondField(Key(t, a)) == Some(a)
  {
    FirstSepOfKey(t, a);
    assert Key(t, a)[|t| + 2..] == a;
  }

  /** A string that starts with `t::` and holds no further `"::"` is the key of its rest. */
  lemma PrefixedKey(t: string, s: string)
    requires Plain(t) && StartsWith(s, t + "::") && NoSep(s[|t| + 2..])
    ensures s == Key(t, s[|t| + 2..])
    ensures SecondField(s) == Some(s[|t| + 2..])
  {
    var rest := s[|t| + 2..];
    assert s == s[..|t| + 2] + rest;
    SecondFieldOfKey(t, rest);
  }

  /** Every character of `s` is whitespace. */
  predicate AllSpace(s: string) {
    forall k :: 0 <= k < |s| ==> IsSpace(s[k])
  }

  /** A whitespace run followed by a non-whitespace start is skipped whole. */
  lemma {:induction false} SkipSpacesRun(ws: string, q: string)
    requires AllSpace(ws) && (q == [] || !IsSpace(q[0]))
    ensures SkipSpaces(ws + q) == q
    decreases |ws|
  {
    if ws == [] {
      assert ws + q == q;
    } else {
      assert (ws + q)[1..] == ws[1..] + q;
      SkipSpacesRun(ws[1..], q);
    }
  }

  /** `replace(/\s+/g, "_")` on a spaceless prefix, one maximal whitespace run
      and the rest: the prefix is kept and the whole run becomes one `_`. */
  lemma {:induction false} UnderscoredRun(p: string, ws: string, q: string)
    requires Spaceless(p) && ws != [] && AllSpace(ws) && (q == [] || !IsSpace(q[0]))
    ensures Underscored(p + ws + q) == p + "_" + Underscored(q)
    decreases |p|
  {
    if p == [] {
      assert p + ws + q == ws + q;
      SkipSpacesRun(ws, q);
    } else {
      assert (p + ws + q)[0] == p[0];
      assert (p + ws + q)[1..] == p[1..] + ws + q;
      UnderscoredRun(p[1..], ws, q);
      assert p + "_" + Underscored(q) == [p[0]] + (p[1..] + "_" + Underscored(q));
    }
  }

}
