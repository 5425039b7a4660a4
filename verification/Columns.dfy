/** Selecting and transforming nested columns. A column is addressed by the path
    of positions that leads to it. Both operations sort the given paths and then
    walk over the columns once, with a cursor into the sorted paths. */
module Columns {
  type Path = seq<nat>

  /** A record keeps its metadata, length and nulls when its fields change. */
  datatype Node = Leaf(array: int) | Record(info: int, fields: Fields)

  datatype Fields = Nil | Cons(name: string, node: Node, rest: Fields)

  datatype Transformation = Transformation(index: Path, fun: (string, Node) -> Fields)

  function Append(a: Fields, b: Fields): Fields
  {
    match a
    case Nil => b
    case Cons(name, node, rest) => Cons(name, node, Append(rest, b))
  }

  function Length(fields: Fields): nat
  {
    if fields.Nil? then 0 else 1 + Length(fields.rest)
  }

  function At(fields: Fields, k: nat): Node
    requires k < Length(fields)
  {
    if k == 0 then fields.node else At(fields.rest, k - 1)
  }

  function Drop(fields: Fields, k: nat): Fields
    requires k <= Length(fields)
  {
    if k == 0 then fields else Drop(fields.rest, k - 1)
  }

  // ----- The order of paths

  /** Compares at the first mismatch; an exhausted path comes first. */
  predicate Less(a: Path, b: Path, from: nat)
    requires from <= |a| && from <= |b|
    decreases |a| - from
  {
    if from == |a| || from == |b| then from < |b|
    else if a[from] != b[from] then a[from] < b[from]
    else Less(a, b, from + 1)
  }

  predicate AtMost(a: Path, b: Path)
  {
    a == b || Less(a, b, 0)
  }

  ghost predicate Sorted(ts: seq<Transformation>)
  {
    forall i, j :: 0 <= i < j < |ts| ==> AtMost(ts[i].index, ts[j].index)
  }

  lemma {:induction false} LessFrom(a: Path, b: Path, d: nat)
    requires d <= |a| && d <= |b| && a[..d] == b[..d]
    ensures Less(a, b, 0) == Less(a, b, d)
  {
    if d > 0 {
      assert a[..d - 1] == a[..d][..d - 1] == b[..d - 1];
      assert a[d - 1] == a[..d][d - 1] == b[d - 1];
      LessFrom(a, b, d - 1);
    }
  }

  lemma {:induction false} LessTotal(a: Path, b: Path, from: nat)
    requires from <= |a| && from <= |b| && a[..from] == b[..from]
    ensures a != b ==> Less(a, b, from) || Less(b, a, from)
    ensures !(Less(a, b, from) && Less(b, a, from)) && (a == b ==> !Less(a, b, from))
    decreases |a| - from
  {
    if from < |a| && from < |b| && a[from] == b[from] {
      assert a[..from + 1] == a[..from] + [a[from]] == b[..from + 1];
      LessTotal(a, b, from + 1);
    } else if from == |a| == |b| {
      assert a == a[..from] && b == b[..from];
    }
  }

  lemma {:induction false} LessTransitive(a: Path, b: Path, c: Path, from: nat)
    requires from <= |a| && from <= |b| && from <= |c| && Less(a, b, from) && Less(b, c, from)
    ensures Less(a, c, from)
    decreases |a| - from
  {
    if from < |a| && from < |b| && from < |c| && a[from] == b[from] == c[from] {
      LessTransitive(a, b, c, from + 1);
    }
  }

  /** A path between a prefix and one of its extensions has the same prefix. */
  lemma {:induction false} Between(p: Path, x: Path, q: Path, from: nat)
    requires from <= |p| && from <= |x| && from <= |q| && p <= q && p[..from] == x[..from]
    requires p == x || Less(p, x, from)
    requires x == q || Less(x, q, from)
    ensures p <= x
    decreases |p| - from
  {
    if from == |p| {
      assert p == p[..from];
    } else if p != x && x != q {
      assert p[from] == x[from] == q[from];
      assert p[..from + 1] == p[..from] + [p[from]] == x[..from + 1];
      Between(p, x, q, from + 1);
    }
  }

  lemma {:induction false} PrefixAtMost(p: Path, q: Path, from: nat)
    requires p <= q && from <= |p|
    ensures p == q || Less(p, q, from)
    decreases |p| - from
  {
    if from < |p| {
      PrefixAtMost(p, q, from + 1);
    }
  }

  // ----- No path is a prefix of another one

  ghost predicate PrefixFree(ts: seq<Transformation>)
  {
    forall i, j :: 0 <= i < |ts| && 0 <= j < |ts| && i != j ==> !(ts[i].index <= ts[j].index)
  }

  method NoAdjacentPrefix(ts: seq<Transformation>) returns (ok: bool)
    requires Sorted(ts)
    ensures ok <==> PrefixFree(ts)
  {
    var i := 0;
    while i + 1 < |ts|
      invariant forall j :: 0 <= j < i && j + 1 < |ts| ==> !(ts[j].index <= ts[j + 1].index)
    {
      if ts[i].index <= ts[i + 1].index {
        return false;
      }
      i := i + 1;
    }
    AdjacentSuffices(ts);
    return true;
  }

  /** After sorting, checking neighbours is enough. */
  lemma AdjacentSuffices(ts: seq<Transformation>)
    requires Sorted(ts) && forall j :: 0 <= j < |ts| - 1 ==> !(ts[j].index <= ts[j + 1].index)
    ensures PrefixFree(ts)
  {
    hide Less;
    forall i, j | 0 <= i < |ts| && 0 <= j < |ts| && i != j
      ensures !(ts[i].index <= ts[j].index)
    {
      var p, q := ts[i].index, ts[j].index;
      if p <= q {
        if i < j {
          Between(p, ts[i + 1].index, q, 0);
        } else {
          PrefixAtMost(p, q, 0);
          LessTotal(p, q, 0);
          Between(q, ts[j + 1].index, p, 0);
        }
      }
    }
  }

  predicate Clash(a: Transformation, b: Transformation)
  {
    a.index <= b.index || b.index <= a.index
  }

  /** s is r with t put at position n. */
  ghost predicate Extends(s: seq<Transformation>, r: seq<Transformation>, n: nat, t: Transformation)
  {
    && n <= |r| && |s| == |r| + 1
    && s[n] == t
    && (forall i :: 0 <= i < n ==> s[i] == r[i])
    && (forall i :: n < i < |s| ==> s[i] == r[i - 1])
  }

  lemma ExtendedFree(s: seq<Transformation>, r: seq<Transformation>, n: nat, t: Transformation)
    requires Extends(s, r, n, t) && PrefixFree(s)
    ensures PrefixFree(r) && forall x :: x in r ==> !Clash(t, x)
  {
    forall i, j | 0 <= i < |r| && 0 <= j < |r| && i != j
      ensures !(r[i].index <= r[j].index)
    {
      assert r[i] == s[if i < n then i else i + 1] && r[j] == s[if j < n then j else j + 1];
    }
    forall x | x in r ensures !Clash(t, x) {
      var i :| 0 <= i < |r| && r[i] == x;
      assert s[if i < n then i else i + 1] == x && s[n] == t;
    }
  }

  lemma FreeExtended(s: seq<Transformation>, r: seq<Transformation>, n: nat, t: Transformation)
    requires Extends(s, r, n, t) && PrefixFree(r) && forall x :: x in r ==> !Clash(t, x)
    ensures PrefixFree(s)
  {
    forall i, j | 0 <= i < |s| && 0 <= j < |s| && i != j
      ensures !(s[i].index <= s[j].index)
    {
      if i == n {
        assert s[j] == r[if j < n then j else j - 1];
        assert s[j] in r && !Clash(t, s[j]);
      } else if j == n {
        assert s[i] == r[if i < n then i else i - 1];
        assert s[i] in r && !Clash(t, s[i]);
      } else {
        assert s[i] == r[if i < n then i else i - 1] && s[j] == r[if j < n then j else j - 1];
      }
    }
  }

  lemma InsertedFree(a: seq<Transformation>, t: Transformation, b: seq<Transformation>)
    ensures PrefixFree(a + [t] + b) <==> PrefixFree(a + b) && forall x :: x in a + b ==> !Clash(t, x)
  {
    hide PrefixFree, Clash;
    forall i | 0 <= i <= |a + b|
      ensures (a + [t] + b)[i] == if i < |a| then (a + b)[i] else if i == |a| then t else (a + b)[i - 1]
    {
    }
    if PrefixFree(a + [t] + b) {
      ExtendedFree(a + [t] + b, a + b, |a|, t);
    }
    if PrefixFree(a + b) && forall x :: x in a + b ==> !Clash(t, x) {
      FreeExtended(a + [t] + b, a + b, |a|, t);
    }
  }

  lemma InsertedSorted(s: seq<Transformation>, k: nat, t: Transformation)
    requires Sorted(s) && k <= |s|
    requires forall i :: 0 <= i < k ==> AtMost(s[i].index, t.index)
    requires k < |s| ==> AtMost(t.index, s[k].index)
    ensures Sorted(s[..k] + [t] + s[k..])
  {
    hide AtMost;
    forall j | k <= j < |s| ensures AtMost(t.index, s[j].index) {
      if j > k {
        AtMostTransitive(t.index, s[k].index, s[j].index);
      }
    }
  }

  lemma AtMostTransitive(a: Path, b: Path, c: Path)
    requires AtMost(a, b) && AtMost(b, c)
    ensures AtMost(a, c)
  {
    if a != b && b != c {
      LessTransitive(a, b, c, 0);
    }
  }

  method Sort(ts: seq<Transformation>) returns (s: seq<Transformation>)
    ensures Sorted(s) && |s| == |ts|
    ensures forall t :: t in s <==> t in ts
    ensures PrefixFree(s) <==> PrefixFree(ts)
  {
    hide AtMost, Less, PrefixFree, Clash;
    s := [];
    NothingFree(ts);
    for n := 0 to |ts|
      invariant Sorted(s) && |s| == n
      invariant forall t :: t in s <==> t in ts[..n]
      invariant PrefixFree(s) <==> PrefixFree(ts[..n])
    {
      s := Insert(s, ts[n]);
      assert ts[..n + 1] == ts[..n] + [ts[n]] + [] && ts[..n] + [] == ts[..n];
      InsertedFree(ts[..n], ts[n], []);
    }
  }

  lemma NothingFree(ts: seq<Transformation>)
    ensures PrefixFree([]) && ts[..0] == [] && ts[..|ts|] == ts
  {
  }

  method Insert(s: seq<Transformation>, t: Transformation) returns (r: seq<Transformation>)
    requires Sorted(s)
    ensures Sorted(r) && |r| == |s| + 1
    ensures forall x :: x in r <==> x in s || x == t
    ensures PrefixFree(r) <==> PrefixFree(s) && forall x :: x in s ==> !Clash(t, x)
  {
    hide Less, PrefixFree, Clash;
    var k := 0;
    while k < |s| && !AtMost(t.index, s[k].index)
      invariant k <= |s| && forall i :: 0 <= i < k ==> AtMost(s[i].index, t.index)
    {
      LessTotal(t.index, s[k].index, 0);
      k := k + 1;
    }
    InsertedSorted(s, k, t);
    InsertedFree(s[..k], t, s[k..]);
    assert s[..k] + s[k..] == s;
    r := s[..k] + [t] + s[k..];
  }

  // ----- What the walk has to produce

  ghost predicate Has(ts: seq<Transformation>, index: Path)
  {
    exists i :: 0 <= i < |ts| && ts[i].index == index
  }

  ghost predicate Below(ts: seq<Transformation>, index: Path)
  {
    exists i :: 0 <= i < |ts| && index < ts[i].index
  }

  ghost function FunAt(ts: seq<Transformation>, index: Path): (string, Node) -> Fields
    requires Has(ts, index)
  {
    var i :| 0 <= i < |ts| && ts[i].index == index;
    ts[i].fun
  }

  /** A path leads to a column. */
  predicate Resolves(fields: Fields, p: Path, d: nat)
    decreases |p| - d
  {
    && d < |p| && p[d] < Length(fields)
    && (d + 1 == |p| || (At(fields, p[d]).Record? && Resolves(At(fields, p[d]).fields, p, d + 1)))
  }

  /** Every column with a given path is replaced by what its function makes of it,
      records above such a column are rebuilt, and all other columns are kept
      or dropped. */
  ghost function Rewritten(fields: Fields, ts: seq<Transformation>, prefix: Path, k: nat, keep: bool): (r: Fields)
  {
    match fields
    case Nil => Nil
    case Cons(name, node, rest) =>
      var index := prefix + [k];
      var more := Rewritten(rest, ts, prefix, k + 1, keep);
      if Has(ts, index) then Append(FunAt(ts, index)(name, node), more)
      else if Below(ts, index) && node.Record? then
        Cons(name, Record(node.info, Rewritten(node.fields, ts, index, 0, keep)), more)
      else if keep then Cons(name, node, more)
      else more
  }

  // ----- The walk

  /** The paths from lo up to hi are those that start with a prefix. */
  ghost predicate Block(ts: seq<Transformation>, prefix: Path, lo: nat, hi: nat)
  {
    && lo <= hi <= |ts|
    && forall i :: 0 <= i < |ts| ==> (prefix <= ts[i].index <==> lo <= i < hi)
  }

  /** The cursor stands on a path that the walk has already passed. */
  ghost predicate Stuck(ts: seq<Transformation>, d: nat, k: nat, cur: nat, hi: nat)
    requires hi <= |ts|
  {
    cur < hi && (|ts[cur].index| <= d || ts[cur].index[d] < k)
  }

  /** The paths before the cursor have been found, among the first k columns. */
  ghost predicate Found(fields: Fields, ts: seq<Transformation>, d: nat, k: nat, lo: nat, cur: nat)
    requires cur <= |ts|
  {
    forall i :: lo <= i < cur ==> Resolves(fields, ts[i].index, d) && ts[i].index[d] < k
  }

  /** In a block, the next components are in order. */
  lemma NextComponents(ts: seq<Transformation>, prefix: Path, lo: nat, hi: nat, i: nat, j: nat)
    requires Sorted(ts) && Block(ts, prefix, lo, hi) && lo <= i <= j < hi
    requires |ts[i].index| > |prefix| && |ts[j].index| > |prefix|
    ensures ts[i].index[|prefix|] <= ts[j].index[|prefix|]
  {
    hide Less;
    if i < j {
      var d, a, b := |prefix|, ts[i].index, ts[j].index;
      assert AtMost(a, b) && prefix <= a && prefix <= b;
      assert a[..d] == prefix == b[..d];
      if a != b {
        LessFrom(a, b, d);
        NextLess(a, b, d);
      }
    }
  }

  lemma NextLess(a: Path, b: Path, d: nat)
    requires d < |a| && d < |b| && Less(a, b, d)
    ensures a[d] <= b[d]
  {
  }

  lemma OneMore(prefix: Path, k: nat, p: Path)
    ensures prefix + [k] <= p <==> prefix <= p && |p| > |prefix| && p[|prefix|] == k
    ensures prefix + [k] == p ==> |p| == |prefix| + 1
    ensures prefix <= p && |p| == |prefix| + 1 && p[|prefix|] == k ==> p == prefix + [k]
  {
  }

  /** The cursor decides whether a column is addressed: if it is not stuck, some
      path starts with the index of the column if and only if the path at the
      cursor does. */
  lemma CursorDecides(ts: seq<Transformation>, prefix: Path, k: nat, lo: nat, cur: nat, hi: nat, i: nat)
    requires Sorted(ts) && PrefixFree(ts) && Block(ts, prefix, lo, hi) && lo <= cur <= hi
    requires forall m :: lo <= m < cur ==> |ts[m].index| > |prefix| && ts[m].index[|prefix|] < k
    requires !Stuck(ts, |prefix|, k, cur, hi)
    requires i < |ts| && prefix + [k] <= ts[i].index
    ensures cur < hi && cur <= i && prefix + [k] <= ts[cur].index
    ensures prefix + [k] == ts[i].index ==> i == cur
    ensures prefix + [k] == ts[cur].index ==> i == cur
  {
    hide PrefixFree, Sorted;
    OneMore(prefix, k, ts[i].index);
    assert lo <= i < hi && i >= cur;
    OneMore(prefix, k, ts[cur].index);
    NextComponents(ts, prefix, lo, hi, cur, i);
    Apart(ts, cur, i);
  }

  lemma Apart(ts: seq<Transformation>, i: nat, j: nat)
    requires PrefixFree(ts) && i < |ts| && j < |ts|
    ensures i != j ==> !(ts[i].index <= ts[j].index) && !(ts[j].index <= ts[i].index)
  {
  }

  /** Behind the paths that start with an index, the cursor is not stuck. */
  lemma MovesOn(ts: seq<Transformation>, prefix: Path, k: nat, lo: nat, cur: nat, next: nat, hi: nat)
    requires Sorted(ts) && PrefixFree(ts) && Block(ts, prefix, lo, hi) && lo <= cur < next <= hi
    requires prefix + [k] <= ts[cur].index
    requires next < hi ==> !(prefix + [k] <= ts[next].index)
    ensures !Stuck(ts, |prefix|, k + 1, next, hi)
  {
    hide PrefixFree, Sorted;
    if next < hi {
      OneMore(prefix, k, ts[cur].index);
      OneMore(prefix, k, ts[next].index);
      Apart(ts, next, cur);
      assert ts[next].index[..|prefix|] == prefix == ts[cur].index[..|prefix|];
      NextComponents(ts, prefix, lo, hi, cur, next);
    }
  }

  /** The end of the paths that start with an index. */
  ghost function BlockEnd(ts: seq<Transformation>, index: Path, from: nat): (hi: nat)
    requires from <= |ts|
    ensures from <= hi <= |ts|
    ensures forall i :: from <= i < hi ==> index <= ts[i].index
    ensures hi < |ts| ==> !(index <= ts[hi].index)
    decreases |ts| - from
  {
    if from < |ts| && index <= ts[from].index then BlockEnd(ts, index, from + 1) else from
  }

  /** Behind a path that does not start with an index, no path does. */
  lemma BehindEnd(ts: seq<Transformation>, index: Path, cur: nat, end: nat, i: nat)
    requires Sorted(ts) && cur < end <= i < |ts| && index <= ts[cur].index && !(index <= ts[end].index)
    ensures !(index <= ts[i].index)
  {
    hide Less;
    if index <= ts[i].index {
      PrefixAtMost(index, ts[cur].index, 0);
      if index != ts[cur].index {
        AtMostTransitive(index, ts[cur].index, ts[end].index);
      }
      Between(index, ts[end].index, ts[i].index, 0);
    }
  }

  /** The paths of a nested layer are a part of those of the layer above. */
  lemma NestedBlock(ts: seq<Transformation>, prefix: Path, k: nat, lo: nat, cur: nat, hi: nat)
    requires Sorted(ts) && PrefixFree(ts) && Block(ts, prefix, lo, hi) && lo <= cur < hi
    requires forall m :: lo <= m < cur ==> |ts[m].index| > |prefix| && ts[m].index[|prefix|] < k
    requires prefix + [k] <= ts[cur].index
    ensures Block(ts, prefix + [k], cur, BlockEnd(ts, prefix + [k], cur))
    ensures cur < BlockEnd(ts, prefix + [k], cur) <= hi
  {
    hide PrefixFree, Sorted;
    var index := prefix + [k];
    var end := BlockEnd(ts, index, cur);
    forall i | 0 <= i < |ts|
      ensures index <= ts[i].index <==> cur <= i < end
    {
      OneMore(prefix, k, ts[i].index);
      if end <= i {
        BehindEnd(ts, index, cur, end, i);
      }
    }
    if end > hi {
      OneMore(prefix, k, ts[hi].index);
    }
  }

  lemma {:induction false} AppendNil(a: Fields)
    ensures Append(a, Nil) == a
  {
    if a.Cons? {
      AppendNil(a.rest);
    }
  }

  lemma {:induction false} AppendAppend(a: Fields, b: Fields, c: Fields)
    ensures Append(Append(a, b), c) == Append(a, Append(b, c))
  {
    if a.Cons? {
      AppendAppend(a.rest, b, c);
    }
  }

  lemma {:induction false} DropOne(fields: Fields, k: nat)
    requires k < Length(fields)
    ensures Drop(fields, k).Cons? && Drop(fields, k).node == At(fields, k)
        && Drop(fields, k).rest == Drop(fields, k + 1)
    ensures Length(Drop(fields, k)) == Length(fields) - k
  {
    if k > 0 {
      DropOne(fields.rest, k - 1);
    } else {
      assert Drop(fields, 1) == Drop(fields.rest, 0);
    }
  }

  lemma {:induction false} DropAll(fields: Fields)
    ensures Drop(fields, Length(fields)) == Nil
  {
    if fields.Cons? {
      DropAll(fields.rest);
    }
  }

  ghost predicate AllResolve(fields: Fields, ts: seq<Transformation>, d: nat, lo: nat, hi: nat)
    requires hi <= |ts|
  {
    forall i :: lo <= i < hi ==> Resolves(fields, ts[i].index, d)
  }

  /** What is known of the walk over a layer before column k. The result is as
      wanted unless the cursor is stuck, which it is for good and only on a path
      that leads nowhere. */
  ghost predicate Walking(fields: Fields, ts: seq<Transformation>, prefix: Path, lo: nat, hi: nat, keep: bool,
                          k: nat, cur: nat, result: Fields)
  {
    && lo <= cur <= hi <= |ts| && k <= Length(fields)
    && Found(fields, ts, |prefix|, k, lo, cur)
    && (Stuck(ts, |prefix|, k, cur, hi) ==> !Resolves(fields, ts[cur].index, |prefix|))
    && (!Stuck(ts, |prefix|, k, cur, hi) ==>
          Append(result, Rewritten(Drop(fields, k), ts, prefix, k, keep)) == Rewritten(fields, ts, prefix, 0, keep))
  }

  /** The cursor's path is the index of the column. */
  lemma ExactStep(fields: Fields, ts: seq<Transformation>, prefix: Path, lo: nat, hi: nat, keep: bool,
                  field: Fields, k: nat, cur: nat, result: Fields)
    requires Sorted(ts) && PrefixFree(ts) && Block(ts, prefix, lo, hi)
    requires k < Length(fields) && field.Cons? && field == Drop(fields, k)
    requires Walking(fields, ts, prefix, lo, hi, keep, k, cur, result)
    requires cur < |ts| && ts[cur].index == prefix + [k]
    ensures Walking(fields, ts, prefix, lo, hi, keep, k + 1, cur + 1,
        Append(result, ts[cur].fun(field.name, field.node)))
  {
    hide PrefixFree, Sorted, Append, Drop, At, Length;
    DropOne(fields, k);
    OneMore(prefix, k, ts[cur].index);
    ExactFun(ts, cur);
    Apart(ts, cur, if cur + 1 < |ts| then cur + 1 else cur);
    MovesOn(ts, prefix, k, lo, cur, cur + 1, hi);
    AppendAppend(result, ts[cur].fun(field.name, field.node), Rewritten(field.rest, ts, prefix, k + 1, keep));
  }

  lemma ExactFun(ts: seq<Transformation>, cur: nat)
    requires PrefixFree(ts) && cur < |ts|
    ensures Has(ts, ts[cur].index) && FunAt(ts, ts[cur].index) == ts[cur].fun
  {
  }

  /** The column is not addressed. */
  lemma OtherStep(fields: Fields, ts: seq<Transformation>, prefix: Path, lo: nat, hi: nat, keep: bool,
                  field: Fields, k: nat, cur: nat, result: Fields)
    requires Sorted(ts) && PrefixFree(ts) && Block(ts, prefix, lo, hi)
    requires k < Length(fields) && field.Cons? && field == Drop(fields, k)
    requires Walking(fields, ts, prefix, lo, hi, keep, k, cur, result)
    requires cur < |ts| ==> !(prefix + [k] <= ts[cur].index)
    ensures Walking(fields, ts, prefix, lo, hi, keep, k + 1, cur,
                    if keep then Append(result, Cons(field.name, field.node, Nil)) else result)
  {
    hide PrefixFree, Sorted, Drop, At, Length;
    DropOne(fields, k);
    if !Stuck(ts, |prefix|, k, cur, hi) {
      forall i | 0 <= i < |ts| ensures !(prefix + [k] <= ts[i].index) {
        if prefix + [k] <= ts[i].index {
          CursorDecides(ts, prefix, k, lo, cur, hi, i);
        }
      }
      AppendAppend(result, Cons(field.name, field.node, Nil), Rewritten(field.rest, ts, prefix, k + 1, keep));
      assert Append(Cons(field.name, field.node, Nil), Rewritten(field.rest, ts, prefix, k + 1, keep))
          == Cons(field.name, field.node, Rewritten(field.rest, ts, prefix, k + 1, keep));
    }
  }

  /** The column is a record above the cursor's path, and the walk over its fields
      has stopped at another path. */
  lemma NestedStep(fields: Fields, ts: seq<Transformation>, prefix: Path, lo: nat, hi: nat, keep: bool,
                   field: Fields, k: nat, cur: nat, result: Fields, next: nat, nested: Fields)
    requires Sorted(ts) && PrefixFree(ts) && Block(ts, prefix, lo, hi)
    requires k < Length(fields) && field.Cons? && field == Drop(fields, k)
    requires Walking(fields, ts, prefix, lo, hi, keep, k, cur, result)
    requires cur < |ts| && prefix + [k] < ts[cur].index && field.node.Record?
    requires var end := BlockEnd(ts, prefix + [k], cur);
             && cur <= next <= end
             && AllResolve(field.node.fields, ts, |prefix| + 1, cur, next)
             && (next < end ==> !Resolves(field.node.fields, ts[next].index, |prefix| + 1))
             && (next == end ==> nested == Rewritten(field.node.fields, ts, prefix + [k], 0, keep))
    ensures Walking(fields, ts, prefix, lo, hi, keep, k + 1, next,
                    Append(result, Cons(field.name, Record(field.node.info, nested), Nil)))
  {
    hide PrefixFree, Sorted, Drop, At, Length;
    var end := BlockEnd(ts, prefix + [k], cur);
    var column := Cons(field.name, Record(field.node.info, nested), Nil);
    var more := Rewritten(field.rest, ts, prefix, k + 1, keep);
    DropOne(fields, k);
    OneMore(prefix, k, ts[cur].index);
    NestedBlock(ts, prefix, k, lo, cur, hi);
    forall i | cur <= i < end
      ensures |ts[i].index| > |prefix| && ts[i].index[|prefix|] == k
      ensures ts[i].index == prefix + [k]
           || Resolves(fields, ts[i].index, |prefix|) == Resolves(field.node.fields, ts[i].index, |prefix| + 1)
    {
      OneMore(prefix, k, ts[i].index);
    }
    NotExact(ts, prefix + [k], cur);
    if next == end {
      MovesOn(ts, prefix, k, lo, cur, next, hi);
      AppendAppend(result, column, more);
      assert Append(column, more) == Cons(field.name, Record(field.node.info, nested), more);
    }
  }

  lemma NotExact(ts: seq<Transformation>, index: Path, cur: nat)
    requires PrefixFree(ts) && cur < |ts| && index < ts[cur].index
    ensures !Has(ts, index) && Below(ts, index)
  {
  }

  lemma StartWalking(fields: Fields, ts: seq<Transformation>, prefix: Path, lo: nat, hi: nat, keep: bool)
    requires Block(ts, prefix, lo, hi)
    ensures Drop(fields, 0) == fields && Walking(fields, ts, prefix, lo, hi, keep, 0, lo, Nil)
  {
    hide Rewritten;
  }

  lemma {:induction false} RestLeft(fields: Fields, k: nat)
    requires k <= Length(fields) && Drop(fields, k).Cons?
    ensures k < Length(fields) && Drop(fields, k).node == At(fields, k) && Drop(fields, k).rest == Drop(fields, k + 1)
  {
    DropAll(fields);
    if k < Length(fields) {
      DropOne(fields, k);
    }
  }

  lemma Blocked(fields: Fields, ts: seq<Transformation>, prefix: Path, lo: nat, hi: nat, k: nat, cur: nat)
    requires Block(ts, prefix, lo, hi) && k < Length(fields)
    requires cur < |ts| && prefix + [k] < ts[cur].index && !At(fields, k).Record?
    ensures !AllResolve(fields, ts, |prefix|, lo, hi)
  {
    assert !Resolves(fields, ts[cur].index, |prefix|);
  }

  lemma InNestedBlock(fields: Fields, ts: seq<Transformation>, prefix: Path, lo: nat, hi: nat, keep: bool,
                      k: nat, cur: nat, result: Fields)
    requires Sorted(ts) && PrefixFree(ts) && Block(ts, prefix, lo, hi)
    requires Walking(fields, ts, prefix, lo, hi, keep, k, cur, result)
    requires cur < |ts| && prefix + [k] <= ts[cur].index
    ensures Block(ts, prefix + [k], cur, BlockEnd(ts, prefix + [k], cur))
    ensures BlockEnd(ts, prefix + [k], cur) <= hi
  {
    hide PrefixFree, Sorted, Rewritten, Append, Drop;
    NestedBlock(ts, prefix, k, lo, cur, hi);
  }

  lemma Unresolved(fields: Fields, ts: seq<Transformation>, prefix: Path, lo: nat, hi: nat, k: nat, cur: nat, end: nat)
    requires Block(ts, prefix, lo, hi) && lo <= cur <= end <= hi && k < Length(fields) && At(fields, k).Record?
    requires PrefixFree(ts) && cur < |ts| && prefix + [k] < ts[cur].index && Block(ts, prefix + [k], cur, end)
    requires !AllResolve(At(fields, k).fields, ts, |prefix| + 1, cur, end)
    ensures !AllResolve(fields, ts, |prefix|, lo, hi)
  {
    hide PrefixFree, At, Length;
    var i :| cur <= i < end && !Resolves(At(fields, k).fields, ts[i].index, |prefix| + 1);
    NotExact(ts, prefix + [k], cur);
    OneMore(prefix, k, ts[i].index);
    assert !Resolves(fields, ts[i].index, |prefix|);
  }

  lemma DoneWalking(fields: Fields, ts: seq<Transformation>, prefix: Path, lo: nat, hi: nat, keep: bool,
                    k: nat, cur: nat, result: Fields)
    requires Block(ts, prefix, lo, hi) && Walking(fields, ts, prefix, lo, hi, keep, k, cur, result)
    requires Drop(fields, k) == Nil
    ensures lo <= cur <= hi && AllResolve(fields, ts, |prefix|, lo, cur)
    ensures cur < hi ==> !Resolves(fields, ts[cur].index, |prefix|)
    ensures cur == hi ==> result == Rewritten(fields, ts, prefix, 0, keep)
  {
    if k < Length(fields) {
      DropOne(fields, k);
    }
    AppendNil(result);
  }

  /** Walks over one layer with a cursor into the sorted paths that is shared by
      all layers. It gives up on a path that goes on below a column that is not a
      record. */
  method Walk(fields: Fields, ts: seq<Transformation>, prefix: Path, lo: nat, keep: bool, ghost hi: nat)
    returns (ok: bool, result: Fields, cur: nat)
    requires Sorted(ts) && PrefixFree(ts) && Block(ts, prefix, lo, hi)
    ensures ok ==> lo <= cur <= hi && AllResolve(fields, ts, |prefix|, lo, cur)
    ensures ok && cur < hi ==> !Resolves(fields, ts[cur].index, |prefix|)
    ensures ok && cur == hi ==> result == Rewritten(fields, ts, prefix, 0, keep)
    ensures AllResolve(fields, ts, |prefix|, lo, hi) ==> ok && cur == hi
    decreases fields
  {
    hide PrefixFree, Sorted, Append, Drop, At, Length, Rewritten, Block;
    var rest, k := fields, 0;
    result, cur, ok := Nil, lo, true;
    StartWalking(fields, ts, prefix, lo, hi, keep);
    while rest.Cons?
      invariant fields nonincreases to rest
      invariant k <= Length(fields) && rest == Drop(fields, k)
      invariant Walking(fields, ts, prefix, lo, hi, keep, k, cur, result)
      decreases rest
    {
      RestLeft(fields, k);
      var index := prefix + [k];
      if cur < |ts| && index == ts[cur].index {
        ExactStep(fields, ts, prefix, lo, hi, keep, rest, k, cur, result);
        result := Append(result, ts[cur].fun(rest.name, rest.node));
        cur := cur + 1;
      } else if cur < |ts| && index <= ts[cur].index {
        if !rest.node.Record? {
          Blocked(fields, ts, prefix, lo, hi, k, cur);
          ok := false;
          return;
        }
        ghost var end := BlockEnd(ts, index, cur);
        InNestedBlock(fields, ts, prefix, lo, hi, keep, k, cur, result);
        var sub, nested, next := Walk(rest.node.fields, ts, index, cur, keep, end);
        if !sub {
          Unresolved(fields, ts, prefix, lo, hi, k, cur, end);
          ok := false;
          return;
        }
        NestedStep(fields, ts, prefix, lo, hi, keep, rest, k, cur, result, next, nested);
        result := Append(result, Cons(rest.name, Record(rest.node.info, nested), Nil));
        cur := next;
      } else {
        OtherStep(fields, ts, prefix, lo, hi, keep, rest, k, cur, result);
        if keep {
          result := Append(result, Cons(rest.name, rest.node, Nil));
        }
      }
      rest := rest.rest;
      k := k + 1;
    }
    DoneWalking(fields, ts, prefix, lo, hi, keep, k, cur, result);
  }

  // ----- The order of the given paths does not matter

  ghost predicate SameMembers(s: seq<Transformation>, ts: seq<Transformation>)
  {
    forall t :: t in s <==> t in ts
  }

  lemma SameLookup(s: seq<Transformation>, ts: seq<Transformation>, index: Path)
    requires SameMembers(s, ts) && PrefixFree(s) && PrefixFree(ts)
    ensures Has(s, index) <==> Has(ts, index)
    ensures Below(s, index) <==> Below(ts, index)
    ensures Has(s, index) ==> FunAt(s, index) == FunAt(ts, index)
  {
    HasMember(s, ts, index);
    HasMember(ts, s, index);
    if Has(s, index) {
      var i :| 0 <= i < |s| && s[i].index == index && s[i].fun == FunAt(s, index);
      assert s[i] in ts;
      var j :| 0 <= j < |ts| && ts[j] == s[i];
      ExactFun(ts, j);
    }
  }

  lemma HasMember(s: seq<Transformation>, ts: seq<Transformation>, index: Path)
    requires forall t :: t in s ==> t in ts
    ensures Has(s, index) ==> Has(ts, index)
    ensures Below(s, index) ==> Below(ts, index)
  {
    if Has(s, index) {
      var i :| 0 <= i < |s| && s[i].index == index;
      assert s[i] in ts;
      var j :| 0 <= j < |ts| && ts[j] == s[i];
    }
    if Below(s, index) {
      var i :| 0 <= i < |s| && index < s[i].index;
      assert s[i] in ts;
      var j :| 0 <= j < |ts| && ts[j] == s[i];
    }
  }

  lemma {:induction false} SameRewritten(fields: Fields, s: seq<Transformation>, ts: seq<Transformation>, prefix: Path,
                                         k: nat, keep: bool)
    requires SameMembers(s, ts) && PrefixFree(s) && PrefixFree(ts)
    ensures Rewritten(fields, s, prefix, k, keep) == Rewritten(fields, ts, prefix, k, keep)
  {
    hide PrefixFree, SameMembers, Has, Below, FunAt;
    if fields.Cons? {
      SameLookup(s, ts, prefix + [k]);
      SameRewritten(fields.rest, s, ts, prefix, k + 1, keep);
      if fields.node.Record? {
        SameRewritten(fields.node.fields, s, ts, prefix + [k], 0, keep);
      }
    }
  }

  lemma SameResolve(fields: Fields, s: seq<Transformation>, ts: seq<Transformation>)
    requires forall t :: t in s ==> t in ts
    requires AllResolve(fields, ts, 0, 0, |ts|)
    ensures AllResolve(fields, s, 0, 0, |s|)
  {
    forall i | 0 <= i < |s| ensures Resolves(fields, s[i].index, 0) {
      assert s[i] in ts;
    }
  }

  /** A layer below which no path leads stays as it is, or is dropped as a whole. */
  lemma {:induction false} Untouched(fields: Fields, ts: seq<Transformation>, prefix: Path, k: nat, keep: bool)
    requires forall i :: 0 <= i < |ts| ==> !(prefix < ts[i].index)
    ensures Rewritten(fields, ts, prefix, k, keep) == if keep then fields else Nil
  {
    if fields.Cons? {
      forall i | 0 <= i < |ts| ensures !(prefix + [k] <= ts[i].index) {
        OneMore(prefix, k, ts[i].index);
      }
      Untouched(fields.rest, ts, prefix, k + 1, keep);
    }
  }

  // ----- What happens to each column

  datatype Content = Data(cells: int) | Info(info: int)

  /** A column with the names that lead to it. */
  datatype Entry = Entry(names: seq<string>, content: Content)

  function ContentOf(node: Node): Content
  {
    match node
    case Leaf(cells) => Data(cells)
    case Record(info, _) => Info(info)
  }

  /** All columns, a record before its fields. */
  function Listing(fields: Fields, names: seq<string>): seq<Entry>
  {
    match fields
    case Nil => []
    case Cons(name, node, rest) =>
      [Entry(names + [name], ContentOf(node))] + Inside(node, names + [name]) + Listing(rest, names)
  }

  function Inside(node: Node, names: seq<string>): seq<Entry>
  {
    if node.Record? then Listing(node.fields, names) else []
  }

  ghost predicate Above(ts: seq<Transformation>, index: Path)
  {
    exists i :: 0 <= i < |ts| && ts[i].index < index
  }

  /** What becomes of one column, by its path alone: below a given path nothing is left of
      it, at a given path there is what the function makes of it, a record above a given
      path stays, and anything else is kept or dropped. */
  ghost function Becomes(ts: seq<Transformation>, index: Path, names: seq<string>, name: string, node: Node,
                         keep: bool): seq<Entry>
  {
    if Above(ts, index) then []
    else if Has(ts, index) then Listing(FunAt(ts, index)(name, node), names)
    else if keep || (Below(ts, index) && node.Record?) then [Entry(names + [name], ContentOf(node))]
    else []
  }

  /** One column after the other. */
  ghost function Transformed(fields: Fields, ts: seq<Transformation>, prefix: Path, k: nat, names: seq<string>,
                             keep: bool): seq<Entry>
  {
    match fields
    case Nil => []
    case Cons(name, node, rest) =>
      Becomes(ts, prefix + [k], names, name, node, keep)
      + TransformedInside(node, ts, prefix + [k], names + [name], keep)
      + Transformed(rest, ts, prefix, k + 1, names, keep)
  }

  ghost function TransformedInside(node: Node, ts: seq<Transformation>, index: Path, names: seq<string>,
                                   keep: bool): seq<Entry>
  {
    if node.Record? then Transformed(node.fields, ts, index, 0, names, keep) else []
  }

  lemma {:induction false} ListingAppend(a: Fields, b: Fields, names: seq<string>)
    ensures Listing(Append(a, b), names) == Listing(a, names) + Listing(b, names)
  {
    if a.Cons? {
      ListingAppend(a.rest, b, names);
    }
  }

  lemma PathsBelow(ts: seq<Transformation>, prefix: Path, k: nat)
    ensures Above(ts, prefix + [k]) <==> Above(ts, prefix) || Has(ts, prefix)
    ensures Has(ts, prefix + [k]) || Below(ts, prefix + [k]) ==> Below(ts, prefix)
  {
    forall i | 0 <= i < |ts| ensures ts[i].index < prefix + [k] <==> ts[i].index <= prefix {
    }
  }

  /** Nothing is left below a given path. */
  lemma {:induction false} NothingBelow(fields: Fields, ts: seq<Transformation>, prefix: Path, k: nat,
                                        names: seq<string>, keep: bool)
    requires Above(ts, prefix) || Has(ts, prefix)
    ensures Transformed(fields, ts, prefix, k, names, keep) == []
  {
    hide Above, Has, Below;
    if fields.Cons? {
      PathsBelow(ts, prefix, k);
      NothingBelow(fields.rest, ts, prefix, k + 1, names, keep);
      if fields.node.Record? {
        NothingBelow(fields.node.fields, ts, prefix + [k], 0, names + [fields.name], keep);
      }
    }
  }

  /** Where no path leads, all columns stay, or none. */
  lemma {:induction false} AllBelow(fields: Fields, ts: seq<Transformation>, prefix: Path, k: nat, names: seq<string>,
                                    keep: bool)
    requires !Above(ts, prefix) && !Has(ts, prefix) && !Below(ts, prefix)
    ensures Transformed(fields, ts, prefix, k, names, keep) == if keep then Listing(fields, names) else []
  {
    hide Above, Has, Below;
    if fields.Cons? {
      PathsBelow(ts, prefix, k);
      AllBelow(fields.rest, ts, prefix, k + 1, names, keep);
      if fields.node.Record? {
        AllBelow(fields.node.fields, ts, prefix + [k], 0, names + [fields.name], keep);
      }
    }
  }

  /** The walk over the layers gives, in order, what becomes of each column. */
  lemma {:induction false} RewrittenListing(fields: Fields, ts: seq<Transformation>, prefix: Path, k: nat,
                                            names: seq<string>, keep: bool)
    requires !Above(ts, prefix) && !Has(ts, prefix)
    ensures Listing(Rewritten(fields, ts, prefix, k, keep), names) == Transformed(fields, ts, prefix, k, names, keep)
  {
    hide Above, Has, Below, FunAt;
    if fields.Cons? {
      var Cons(name, node, rest) := fields;
      var index, inner, more := prefix + [k], names + [name], Rewritten(rest, ts, prefix, k + 1, keep);
      PathsBelow(ts, prefix, k);
      RewrittenListing(rest, ts, prefix, k + 1, names, keep);
      if Has(ts, index) {
        ListingAppend(FunAt(ts, index)(name, node), more, names);
        if node.Record? {
          NothingBelow(node.fields, ts, index, 0, inner, keep);
        }
      } else if node.Record? && Below(ts, index) {
        RewrittenListing(node.fields, ts, index, 0, inner, keep);
      } else if node.Record? {
        AllBelow(node.fields, ts, index, 0, inner, keep);
      }
    }
  }

  // ----- The operations

  datatype Outcome = Failed | Nothing | Columns(root: Node)

  /** The walk over all columns, after sorting. */
  method WalkAll(fields: Fields, ts: seq<Transformation>, s: seq<Transformation>, keep: bool)
    returns (ok: bool, result: Fields)
    requires Sorted(s) && PrefixFree(s) && PrefixFree(ts) && SameMembers(s, ts)
    ensures ok <==> AllResolve(fields, ts, 0, 0, |ts|)
    ensures ok ==> result == Rewritten(fields, ts, [], 0, keep)
  {
    hide Sorted, PrefixFree, Rewritten, Resolves;
    assert Block(s, [], 0, |s|);
    var cur: nat;
    ok, result, cur := Walk(fields, s, [], 0, keep, |s|);
    ok := ok && cur == |s|;
    SameRewritten(fields, s, ts, [], 0, keep);
    if ok {
      SameResolve(fields, ts, s);
    }
    if AllResolve(fields, ts, 0, 0, |ts|) {
      SameResolve(fields, s, ts);
    }
  }

  /** Applies each function to the column at its path. An empty path stands for
      all columns together; they have to stay one nameless record. */
  method TransformColumns(root: Node, transformations: seq<Transformation>) returns (r: Outcome)
    requires root.Record?
    ensures root.fields == Nil || transformations == [] ==> r == Columns(root)
    ensures root.fields != Nil && transformations != [] ==>
      (r == if !PrefixFree(transformations) then Failed
            else if Has(transformations, []) then Whole(FunAt(transformations, [])("", root))
            else if AllResolve(root.fields, transformations, 0, 0, |transformations|) then
              Columns(Record(root.info, Rewritten(root.fields, transformations, [], 0, true)))
            else Failed)
  {
    hide Sorted, PrefixFree, Rewritten, Resolves, AllResolve, Less;
    if root.fields == Nil || transformations == [] {
      return Columns(root);
    }
    var s := Sort(transformations);
    var free := NoAdjacentPrefix(s);
    if !free {
      return Failed;
    }
    SameLookup(s, transformations, []);
    EmptyFirst(s);
    if s[0].index == [] {
      assert |s| == 1;
      ExactFun(s, 0);
      return Whole(s[0].fun("", root));
    }
    var ok, fields := WalkAll(root.fields, transformations, s, true);
    r := if ok then Columns(Record(root.info, fields)) else Failed;
  }

  function Whole(columns: Fields): Outcome
  {
    if columns.Cons? && columns.rest == Nil && columns.name == "" && columns.node.Record? then Columns(columns.node)
      else Failed
  }

  /** Only the first of the sorted paths can be empty, and then it is the only one. */
  lemma EmptyFirst(s: seq<Transformation>)
    requires s != [] && PrefixFree(s)
    ensures s[0].index == [] ==> |s| == 1
    ensures Sorted(s) ==> (Has(s, []) <==> s[0].index == [])
  {
    if Has(s, []) {
      var i :| 0 <= i < |s| && s[i].index == [];
      Apart(s, i, 0);
    }
    if |s| > 1 {
      Apart(s, 0, 1);
    }
  }

  function Keep(name: string, node: Node): Fields
  {
    Cons(name, node, Nil)
  }

  function Selections(indices: seq<Path>): (ts: seq<Transformation>)
  {
    seq(|indices|, i requires 0 <= i < |indices| => Transformation(indices[i], Keep))
  }

  /** Keeps the columns at the given paths and the records above them. */
  method SelectColumns(root: Node, indices: seq<Path>) returns (r: Outcome)
    requires root.Record?
    ensures r == if !PrefixFree(Selections(indices)) then Failed
                 else if indices == [] then Nothing
                 else if AllResolve(root.fields, Selections(indices), 0, 0, |indices|) then
                   Columns(Record(root.info, Rewritten(root.fields, Selections(indices), [], 0, false)))
                 else Failed
  {
    hide Sorted, PrefixFree, Rewritten, Resolves, Less;
    var ts := Selections(indices);
    var s := Sort(ts);
    var free := NoAdjacentPrefix(s);
    if !free {
      return Failed;
    }
    if indices == [] {
      return Nothing;
    }
    var ok, fields := WalkAll(root.fields, ts, s, false);
    if !ok {
      return Failed;
    }
    FirstResolves(root.fields, ts);
    KeepsSome(root.fields, ts, [], 0, ts[0].index);
    r := if fields == Nil then Nothing else Columns(Record(root.info, fields));
  }

  lemma FirstResolves(fields: Fields, ts: seq<Transformation>)
    requires ts != [] && AllResolve(fields, ts, 0, 0, |ts|)
    ensures var p := ts[0].index;
            |p| > 0 && p[0] < Length(fields) && (|p| == 1 || At(fields, p[0]).Record?)
  {
    assert Resolves(fields, ts[0].index, 0);
  }

  /** Something is left when a path leads into the columns. */
  lemma {:induction false} KeepsSome(fields: Fields, ts: seq<Transformation>, prefix: Path, k: nat, p: Path)
    requires forall i :: 0 <= i < |ts| ==> ts[i].fun == Keep
    requires exists i :: 0 <= i < |ts| && ts[i].index == p
    requires prefix <= p && |p| > |prefix| && k <= p[|prefix|] < k + Length(fields)
    requires |p| == |prefix| + 1 || At(fields, p[|prefix|] - k).Record?
    ensures Rewritten(fields, ts, prefix, k, false) != Nil
  {
    OneMore(prefix, k, p);
    if p[|prefix|] == k {
      assert Has(ts, prefix + [k]) || Below(ts, prefix + [k]);
    } else {
      KeepsSome(fields.rest, ts, prefix, k + 1, p);
    }
  }
}
