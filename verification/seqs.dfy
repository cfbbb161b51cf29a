/** Sequence and map helpers shared by the vocabulary builder, the batch
    loader and the configuration layer: duplicate-freedom, concatenation of
    batches, first occurrence (`list.index`), the `enumerate`-built inverse
    index (`{w: i for i, w in enumerate(s)}`), first-seen order (the key
    order of a Python `dict` filled while scanning), and `str.split` and
    `str.join` on a one-character separator. */
module Seqs {
  import opened Outcomes

  /** The elements of a list, as a set. */
  function Elements<T>(s: seq<T>): set<T> {
    set x | x in s
  }

  /** The elements of a list extended at the end. */
  lemma ElementsSnoc<T>(s: seq<T>, x: T)
    ensures Elements(s + [x]) == Elements(s) + {x}
  {
  }

  /** No element occurs twice. */
  predicate NoDup<T(==)>(s: seq<T>) {
    forall i, j | 0 <= i < j < |s| :: s[i] != s[j]
  }

  /** The concatenation of all pieces, in order. */
  function Flatten<T>(ss: seq<seq<T>>): seq<T>
    decreases |ss|
  {
    if |ss| == 0 then [] else Flatten(ss[..|ss| - 1]) + ss[|ss| - 1]
  }

  /** `i` is the first position of `s` holding `x`. */
  predicate FirstAt<T(==)>(s: seq<T>, x: T, i: nat) {
    i < |s| && s[i] == x && x !in s[..i]
  }

  /** `s.index(x)`: the first position holding `x`, or None when absent. */
  function IndexOf<T(==)>(s: seq<T>, x: T): (r: Option<nat>)
    ensures r.None? <==> x !in s
    ensures r.Some? ==> FirstAt(s, x, r.value)
  {
    if |s| == 0 then None
    else if s[0] == x then Some(0)
    else
      match IndexOf(s[1..], x)
      case None => None
      case Some(i) =>
        assert s[..i + 1] == [s[0]] + s[1..][..i];
        Some(i + 1)
  }

  /** The first occurrence is the only position `i` with `s[i] == x` and no
      `x` before it. */
  lemma IndexOfUnique<T>(s: seq<T>, x: T, i: nat)
    requires i < |s| && s[i] == x && x !in s[..i]
    ensures IndexOf(s, x) == Some(i)
  {
  }

  /** Looking an element of a prefix up in the whole sequence finds the same
      position. */
  lemma IndexOfPrefix<T>(s: seq<T>, k: nat, x: T)
    requires k <= |s| && x in s[..k]
    ensures IndexOf(s, x) == IndexOf(s[..k], x)
  {
    var i := IndexOf(s[..k], x).value;
    assert s[..k][..i] == s[..i];
    IndexOfUnique(s, x, i);
  }

  /** The map `{s[i]: i for i in range(len(s))}` built by assigning in
      order, so that a repeated element keeps its LAST position. */
  function IndexMap<T(==)>(s: seq<T>): (m: map<T, nat>)
    ensures m.Keys == Elements(s)
    ensures forall x | x in m :: m[x] < |s| && s[m[x]] == x
    ensures forall x, i | x in m && m[x] < i < |s| :: s[i] != x
    decreases |s|
  {
    if |s| == 0 then map[]
    else
      var p := s[..|s| - 1];
      assert s == p + [s[|s| - 1]];
      IndexMapStep(p, s[|s| - 1], IndexMap(p));
      IndexMap(p)[s[|s| - 1] := |s| - 1]
  }

  /** `m` maps every element of `s`, and nothing else, to the last position
      holding it. */
  ghost predicate LastPositions<T>(m: map<T, nat>, s: seq<T>) {
    && m.Keys == Elements(s)
    && (forall y | y in m :: m[y] < |s| && s[m[y]] == y)
    && (forall y, i | y in m && m[y] < i < |s| :: s[i] != y)
  }

  /** Assigning the next position to the next element keeps a map of last
      positions. */
  lemma IndexMapStep<T>(p: seq<T>, x: T, m: map<T, nat>)
    requires LastPositions(m, p)
    ensures LastPositions(m[x := |p|], p + [x])
  {
    ElementsSnoc(p, x);
    var s := p + [x];
    var n := m[x := |p|];
    forall y | y in n
      ensures n[y] < |s| && s[n[y]] == y
    {
      if y != x {
        assert s[m[y]] == p[m[y]];
      }
    }
    forall y, i | y in n && n[y] < i < |s|
      ensures s[i] != y
    {
      if y != x {
        assert i < |p| || s[i] == x;
        if i < |p| {
          assert s[i] == p[i];
        }
      }
    }
  }

  /** Without duplicates the index map inverts the list exactly. */
  lemma IndexMapInverse<T>(s: seq<T>)
    requires NoDup(s)
    ensures forall i | 0 <= i < |s| :: IndexMap(s)[s[i]] == i
    ensures forall x | x in IndexMap(s) :: s[IndexMap(s)[x]] == x
  {
    var m := IndexMap(s);
    forall i | 0 <= i < |s|
      ensures m[s[i]] == i
    {
      assert s[i] in m;
    }
  }

  /** `m` indexes `s` the way `IndexMap` does: its keys are exactly the
      elements, each key maps to the last position holding it, and when `s`
      is duplicate-free `m[s[i]] == i` for every position. */
  ghost predicate IndexesList<T>(m: map<T, nat>, s: seq<T>) {
    && LastPositions(m, s)
    && (NoDup(s) ==> forall i | 0 <= i < |s| :: s[i] in m && m[s[i]] == i)
  }

  /** The index map of any list indexes it. */
  lemma IndexMapIndexes<T>(s: seq<T>)
    ensures IndexesList(IndexMap(s), s)
  {
    if NoDup(s) {
      IndexMapInverse(s);
    }
  }

  /** Every element of `r` occurs in `s`, and `r` lists elements in the order
      of their first occurrence in `s`. */
  ghost predicate InFirstSeenOrder<T>(r: seq<T>, s: seq<T>) {
    && (forall x | x in r :: x in s)
    && (forall i, j | 0 <= i < j < |r| :: IndexOf(s, r[i]).value < IndexOf(s, r[j]).value)
  }

  /** The distinct elements of `s` in first-seen order: the key order of a
      Python dict filled while scanning `s`. */
  function FirstSeen<T(==)>(s: seq<T>): (r: seq<T>)
    ensures NoDup(r)
    ensures forall x | x in r :: x in s
    ensures forall x | x in s :: x in r
    ensures InFirstSeenOrder(r, s)
    decreases |s|
  {
    if |s| == 0 then []
    else
      var p := s[..|s| - 1];
      var x := s[|s| - 1];
      var r := FirstSeen(p);
      assert s == p + [x];
      forall y | y in r
        ensures IndexOf(s, y) == IndexOf(p, y)
      {
        IndexOfPrefix(s, |s| - 1, y);
      }
      if x in r then r
      else
        IndexOfUnique(s, x, |s| - 1);
        r + [x]
  }

  /** The elements of `s` satisfying `p`, in order. */
  function Filter<T>(s: seq<T>, p: T -> bool): (r: seq<T>)
    ensures |r| <= |s|
    ensures forall x | x in r :: x in s && p(x)
    ensures forall x | x in s && p(x) :: x in r
  {
    if |s| == 0 then []
    else if p(s[0]) then [s[0]] + Filter(s[1..], p)
    else Filter(s[1..], p)
  }

  /** Filtering a list with a known head. */
  lemma FilterCons<T>(w: T, rest: seq<T>, p: T -> bool)
    ensures Filter([w] + rest, p) == if p(w) then [w] + Filter(rest, p) else Filter(rest, p)
  {
    assert ([w] + rest)[1..] == rest;
  }

  /** Filtering keeps duplicate-freedom. */
  lemma {:induction false} FilterNoDup<T>(s: seq<T>, p: T -> bool)
    requires NoDup(s)
    ensures NoDup(Filter(s, p))
  {
    if |s| > 0 {
      assert NoDup(s[1..]) by {
        forall i, j | 0 <= i < j < |s[1..]| ensures s[1..][i] != s[1..][j] {
          assert s[1..][i] == s[i + 1] && s[1..][j] == s[j + 1];
        }
      }
      FilterNoDup(s[1..], p);
      assert s[0] !in s[1..] by {
        forall k | 0 <= k < |s[1..]| ensures s[1..][k] != s[0] {
          assert s[1..][k] == s[k + 1];
        }
      }
    }
  }

  /** Filtering keeps first-seen order relative to any reference sequence. */
  lemma {:induction false} FilterKeepsOrder<T>(r: seq<T>, s: seq<T>, p: T -> bool)
    requires InFirstSeenOrder(r, s)
    ensures InFirstSeenOrder(Filter(r, p), s)
  {
    if |r| > 0 {
      OrderTail(r, s);
      FilterKeepsOrder(r[1..], s, p);
      var f := Filter(r[1..], p);
      if p(r[0]) {
        forall y | y in f
          ensures IndexOf(s, r[0]).value < IndexOf(s, y).value
        {
          var k :| 0 <= k < |r[1..]| && r[1..][k] == y;
          assert r[k + 1] == y;
        }
        OrderCons(r[0], f, s);
      }
    }
  }

  /** The tail of an ordered list is ordered. */
  lemma OrderTail<T>(r: seq<T>, s: seq<T>)
    requires |r| > 0 && InFirstSeenOrder(r, s)
    ensures InFirstSeenOrder(r[1..], s)
  {
    forall i, j | 0 <= i < j < |r[1..]|
      ensures IndexOf(s, r[1..][i]).value < IndexOf(s, r[1..][j]).value
    {
      assert r[1..][i] == r[i + 1] && r[1..][j] == r[j + 1];
    }
  }

  /** An element first seen before everything in an ordered list can go in
      front of it. */
  lemma OrderCons<T>(x: T, f: seq<T>, s: seq<T>)
    requires x in s && InFirstSeenOrder(f, s)
    requires forall y | y in f :: IndexOf(s, x).value < IndexOf(s, y).value
    ensures InFirstSeenOrder([x] + f, s)
  {
    var g := [x] + f;
    forall y | y in g
      ensures y in s
    {
      if y != x {
        assert y in f;
      }
    }
    forall j | 0 < j < |g|
      ensures IndexOf(s, g[0]).value < IndexOf(s, g[j]).value
    {
      assert g[j] == f[j - 1] && f[j - 1] in f;
    }
    forall i, j | 0 < i < j < |g|
      ensures IndexOf(s, g[i]).value < IndexOf(s, g[j]).value
    {
      assert g[i] == f[i - 1] && g[j] == f[j - 1];
    }
  }

  /** Filtering a list extended at the end. */
  lemma {:induction false} FilterSnoc<T>(s: seq<T>, x: T, p: T -> bool)
    ensures Filter(s + [x], p) == Filter(s, p) + (if p(x) then [x] else [])
  {
    if |s| > 0 {
      var rest := s[1..];
      FilterSnoc(rest, x, p);
      assert s == [s[0]] + rest;
      assert s + [x] == [s[0]] + (rest + [x]);
      FilterCons(s[0], rest, p);
      FilterCons(s[0], rest + [x], p);
      var h := if p(s[0]) then [s[0]] else [];
      var t := if p(x) then [x] else [];
      ConcatAssoc(h, Filter(rest, p), t);
    }
  }

  /** Concatenation is associative. */
  lemma ConcatAssoc<T>(a: seq<T>, b: seq<T>, c: seq<T>)
    ensures a + (b + c) == a + b + c
  {
  }

  /** `[f(x) for x in xs]` where `f` may raise: the first failure ends the
      iteration with its error. */
  function MapResults<A, B>(xs: seq<A>, f: A --> Result<B>): (r: Result<seq<B>>)
    requires forall k | 0 <= k < |xs| :: f.requires(xs[k])
    ensures r.Success? <==> forall k | 0 <= k < |xs| :: f(xs[k]).Success?
    ensures r.Success? ==> |r.value| == |xs| && forall k | 0 <= k < |xs| :: f(xs[k]) == Success(r.value[k])
    ensures r.Failure? ==> exists k | 0 <= k < |xs| ::
      && f(xs[k]) == Failure(r.error)
      && forall j | 0 <= j < k :: f(xs[j]).Success?
    decreases |xs|
  {
    if |xs| == 0 then Success([])
    else
      var first :- f(xs[0]);
      assert forall k | 1 <= k < |xs| :: xs[k] == xs[1..][k - 1];
      var rest := MapResults(xs[1..], f);
      if rest.Failure? then
        var k :| 0 <= k < |xs[1..]| && f(xs[1..][k]) == Failure(rest.error)
          && forall j | 0 <= j < k :: f(xs[1..][j]).Success?;
        assert f(xs[k + 1]) == Failure(rest.error);
        Failure(rest.error)
      else
        Success([first] + rest.value)
  }

  /** `sub in s` for Python strings. */
  predicate HasSubstring(s: string, sub: string)
    decreases |s|
  {
    if |s| < |sub| then false
    else s[..|sub|] == sub || HasSubstring(s[1..], sub)
  }

  /** `max(s)` of a non-empty list. */
  function Max(s: seq<int>): (r: int)
    requires |s| > 0
    ensures r in s
    ensures forall x | x in s :: x <= r
  {
    if |s| == 1 then s[0]
    else
      var m := Max(s[1..]);
      assert s == [s[0]] + s[1..];
      if s[0] >= m then s[0] else m
  }

  // ---------------------------------------------------------------------
  // str.split
  // ---------------------------------------------------------------------

  /** `s.split(c)` for a single-character separator. */
  function Split(s: string, c: char): (r: seq<string>)
    ensures |r| >= 1
    ensures forall p | p in r :: c !in p
    decreases |s|
  {
    if |s| == 0 then [""]
    else
      var rest := Split(s[1..], c);
      if s[0] == c then [""] + rest
      else [[s[0]] + rest[0]] + rest[1..]
  }

  /** `c.join(parts)`. */
  function JoinOn(parts: seq<string>, c: char): string
    requires |parts| >= 1
    decreases |parts|
  {
    if |parts| == 1 then parts[0] else parts[0] + [c] + JoinOn(parts[1..], c)
  }

  /** Joining the pieces of a split gives back the string. */
  lemma {:induction false} JoinSplit(s: string, c: char)
    ensures JoinOn(Split(s, c), c) == s
    decreases |s|
  {
    if |s| > 0 {
      JoinSplit(s[1..], c);
      var rest := Split(s[1..], c);
      if s[0] == c {
        assert Split(s, c)[1..] == rest;
      } else if |rest| == 1 {
        assert s == [s[0]] + s[1..];
      } else {
        var parts := Split(s, c);
        assert parts[1..] == rest[1..];
        assert JoinOn(rest, c) == rest[0] + [c] + JoinOn(rest[1..], c);
        assert s == [s[0]] + s[1..];
      }
    }
  }

  /** Splitting a join of separator-free pieces gives back the pieces. */
  lemma {:induction false} SplitJoin(parts: seq<string>, c: char)
    requires |parts| >= 1
    requires forall p | p in parts :: c !in p
    ensures Split(JoinOn(parts, c), c) == parts
    decreases |parts|, |parts[0]|
  {
    if |parts[0]| > 0 {
      var head := parts[0];
      var shorter := [head[1..]] + parts[1..];
      ShorterSeparatorFree(parts, c);
      SplitJoin(shorter, c);
      JoinShorter(parts, c);
      assert head == [head[0]] + head[1..];
      assert head[0] != c by {
        assert head[0] in head && head in parts;
      }
    } else if |parts| > 1 {
      assert forall p | p in parts[1..] :: c !in p;
      SplitJoin(parts[1..], c);
      var s := JoinOn(parts, c);
      assert s == [c] + JoinOn(parts[1..], c);
      assert s[1..] == JoinOn(parts[1..], c);
    }
  }

  /** Dropping the first character of the first piece keeps every piece
      free of the separator. */
  lemma ShorterSeparatorFree(parts: seq<string>, c: char)
    requires |parts| >= 1 && |parts[0]| > 0
    requires forall p | p in parts :: c !in p
    ensures forall p | p in [parts[0][1..]] + parts[1..] :: c !in p
  {
    var head := parts[0];
    assert c !in head[1..] by {
      assert head in parts;
      assert forall x | x in head[1..] :: x in head;
    }
    forall p | p in [head[1..]] + parts[1..] ensures c !in p {
      if p != head[1..] {
        assert p in parts[1..];
      }
    }
  }

  /** A join whose first piece is non-empty starts with that piece's first
      character, followed by the join with that character dropped. */
  lemma JoinShorter(parts: seq<string>, c: char)
    requires |parts| >= 1 && |parts[0]| > 0
    ensures JoinOn(parts, c)[0] == parts[0][0]
    ensures JoinOn(parts, c)[1..] == JoinOn([parts[0][1..]] + parts[1..], c)
  {
    var shorter := [parts[0][1..]] + parts[1..];
    if |parts| > 1 {
      assert shorter[1..] == parts[1..];
    }
  }

  /** A split yields one more piece than there are separators. */
  lemma {:induction false} SplitCount(s: string, c: char)
    ensures |Split(s, c)| == multiset(s)[c] + 1
    decreases |s|
  {
    if |s| > 0 {
      SplitCount(s[1..], c);
      assert s == [s[0]] + s[1..];
    }
  }
}
