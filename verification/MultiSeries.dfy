/** Columns that come in parts: splitting several of them into aligned slices, and
    mapping a function over the slices. */
module MultiSeries {
  /** The rows from a position on: the rest of one part, then the later parts. */
  function Rest<T>(parts: seq<seq<T>>, part: nat, start: nat): (r: seq<T>)
    requires part <= |parts| && (part < |parts| ==> start <= |parts[part]|)
    decreases |parts| - part
  {
    if part == |parts| then [] else parts[part][start..] + Rest(parts, part + 1, 0)
  }

  function Rows<T>(parts: seq<seq<T>>): (r: seq<T>)
  {
    Rest(parts, 0, 0)
  }

  /** The number of empty parts at the end of the first n parts. */
  function Trailing<T>(parts: seq<seq<T>>, n: nat): (r: nat)
    requires n <= |parts|
    ensures r <= n
  {
    if n > 0 && |parts[n - 1]| == 0 then 1 + Trailing(parts, n - 1) else 0
  }

  // ----- Positions

  datatype Position = Position(part: nat, start: nat)

  /** A position is at the end, or at a row of its part, or at an empty part. */
  predicate At<T>(parts: seq<seq<T>>, p: Position)
  {
    && p.part <= |parts|
    && (p.part == |parts| ==> p.start == 0)
    && (p.part < |parts| ==> p.start == 0 || p.start < |parts[p.part]|)
  }

  function Here<T>(parts: seq<seq<T>>, p: Position): seq<T>
    requires At(parts, p)
  {
    Rest(parts, p.part, p.start)
  }

  /** Moves on by a number of rows within a part. */
  function Advance<T>(parts: seq<seq<T>>, p: Position, n: nat): Position
    requires At(parts, p) && p.part < |parts| && n <= |parts[p.part]| - p.start
  {
    if |parts[p.part]| - p.start > n then Position(p.part, p.start + n) else Position(p.part + 1, 0)
  }

  lemma AdvanceRows<T>(parts: seq<seq<T>>, p: Position, n: nat)
    requires At(parts, p) && p.part < |parts| && n <= |parts[p.part]| - p.start
    ensures At(parts, Advance(parts, p, n))
    ensures Here(parts, p) == parts[p.part][p.start..p.start + n] + Here(parts, Advance(parts, p, n))
  {
    var part := parts[p.part];
    assert part[p.start..] == part[p.start..p.start + n] + part[p.start + n..];
    if |part| - p.start > n {
      assert Here(parts, p) == part[p.start..p.start + n] + (part[p.start + n..] + Rest(parts, p.part + 1, 0));
    } else {
      assert part[p.start..] == part[p.start..p.start + n];
    }
  }

  /** Without rows left, only empty parts are left. */
  lemma {:induction false} NoRowsLeft<T>(parts: seq<seq<T>>, part: nat)
    requires part <= |parts| && Rest(parts, part, 0) == []
    ensures forall k :: part <= k < |parts| ==> |parts[k]| == 0
    ensures Trailing(parts, |parts|) >= |parts| - part
    ensures part > 0 && |parts[part - 1]| > 0 ==> Trailing(parts, |parts|) == |parts| - part
    decreases |parts| - part
  {
    if part < |parts| {
      NoRowsLeft(parts, part + 1);
    }
    CountTrailing(parts, part, |parts|);
  }

  lemma {:induction false} CountTrailing<T>(parts: seq<seq<T>>, part: nat, n: nat)
    requires part <= n <= |parts| && forall k :: part <= k < n ==> |parts[k]| == 0
    ensures Trailing(parts, n) == n - part + Trailing(parts, part)
  {
    if part < n {
      CountTrailing(parts, part, n - 1);
    }
  }

  // ----- The yielded slices, round by round

  datatype Rounds<T> = Start | More(prev: Rounds<T>, output: seq<seq<T>>)

  /** Every round has a slice of each of n columns, and they are equally long. */
  predicate Even<T>(rounds: Rounds<T>, n: nat)
  {
    rounds.More? ==>
      && Even(rounds.prev, n) && |rounds.output| == n
      && forall i, j :: 0 <= i < n && 0 <= j < n ==> |rounds.output[i]| == |rounds.output[j]|
  }

  /** No slice is empty. */
  predicate Filled<T>(rounds: Rounds<T>)
  {
    rounds.More? ==> Filled(rounds.prev) && forall i :: 0 <= i < |rounds.output| ==> |rounds.output[i]| > 0
  }

  /** The slices of one column, put together. */
  function Column<T>(rounds: Rounds<T>, n: nat, i: nat): seq<T>
    requires Even(rounds, n) && i < n
  {
    match rounds
    case Start => []
    case More(prev, output) => Column(prev, n, i) + output[i]
  }

  // ----- Splitting

  predicate NonEmptyParts<T>(input: seq<seq<seq<T>>>)
  {
    forall i, k :: 0 <= i < |input| && 0 <= k < |input[i]| ==> |input[i][k]| > 0
  }

  /** All columns have the same number of rows, and of empty parts at their end. */
  predicate Splittable<T>(input: seq<seq<seq<T>>>)
  {
    && (forall i, j :: 0 <= i < |input| && 0 <= j < |input| ==> |Rows(input[i])| == |Rows(input[j])|)
    && (forall i, j :: 0 <= i < |input| && 0 <= j < |input| ==>
       Trailing(input[i], |input[i]|) == Trailing(input[j], |input[j]|))
  }

  /** All columns have the same number of rows left. Without any, they have come
      equally far into the empty parts at their end. */
  ghost predicate Aligned<T>(input: seq<seq<seq<T>>>, ps: seq<Position>, left: nat, used: nat)
  {
    && |ps| == |input|
    && (forall i :: 0 <= i < |input| ==> At(input[i], ps[i]) && |Here(input[i], ps[i])| == left)
    && (left == 0 ==> forall i :: 0 <= i < |input| ==> |input[i]| - ps[i].part + used == Trailing(input[i], |input[i]|))
  }

  ghost function Work<T>(input: seq<seq<seq<T>>>, ps: seq<Position>, n: nat): (w: nat)
    requires n <= |input| == |ps| && forall i :: 0 <= i < |input| ==> At(input[i], ps[i])
  {
    if n == 0 then 0 else Work(input, ps, n - 1) + |input[n - 1]| - ps[n - 1].part
  }

  lemma {:induction false} WorkShrinks<T>(input: seq<seq<seq<T>>>, ps: seq<Position>, ps': seq<Position>, n: nat,
                                          i: nat)
    requires n <= |input| == |ps| == |ps'|
    requires forall k :: 0 <= k < |input| ==> At(input[k], ps[k]) && At(input[k], ps'[k]) && ps[k].part <= ps'[k].part
    requires i < |input| && ps[i].part < ps'[i].part
    ensures Work(input, ps', n) <= Work(input, ps, n)
    ensures i < n ==> Work(input, ps', n) < Work(input, ps, n)
  {
    if n > 0 {
      WorkShrinks(input, ps, ps', n - 1, i);
    }
  }

  /** The shortest rest of a current part, unless a column is used up. */
  method Shortest<T>(input: seq<seq<seq<T>>>, ps: seq<Position>) returns (done: bool, shortest: nat, ghost at: nat)
    requires input != [] && |ps| == |input| && forall i :: 0 <= i < |input| ==> At(input[i], ps[i])
    ensures done ==> exists i :: 0 <= i < |input| && ps[i].part == |input[i]|
    ensures !done ==> forall i :: 0 <= i < |input| ==> ps[i].part < |input[i]|
    ensures !done ==> at < |input| && shortest == |input[at][ps[at].part]| - ps[at].start
    ensures !done ==> forall i :: 0 <= i < |input| ==> shortest <= |input[i][ps[i].part]| - ps[i].start
  {
    done, shortest, at := false, 0, 0;
    for i := 0 to |input|
      invariant forall k :: 0 <= k < i ==> ps[k].part < |input[k]|
      invariant i > 0 ==> at < i && shortest == |input[at][ps[at].part]| - ps[at].start
      invariant forall k :: 0 <= k < i ==> shortest <= |input[k][ps[k].part]| - ps[k].start
    {
      if ps[i].part == |input[i]| {
        return true, 0, 0;
      }
      var length := |input[i][ps[i].part]| - ps[i].start;
      if i == 0 || length < shortest {
        shortest, at := length, i;
      }
    }
  }

  method AllUsedUp<T>(input: seq<seq<seq<T>>>, ps: seq<Position>) returns (all: bool)
    requires |ps| == |input|
    ensures all <==> forall j :: 0 <= j < |input| ==> ps[j].part == |input[j]| && ps[j].start == 0
  {
    for j := 0 to |input|
      invariant forall k :: 0 <= k < j ==> ps[k].part == |input[k]| && ps[k].start == 0
    {
      if ps[j].part != |input[j]| || ps[j].start != 0 {
        return false;
      }
    }
    return true;
  }

  /** Cuts the next n rows off every column. */
  method Cut<T>(input: seq<seq<seq<T>>>, ps: seq<Position>, n: nat) returns (output: seq<seq<T>>, ps': seq<Position>)
    requires |ps| == |input| && forall i :: 0 <= i < |input| ==> At(input[i], ps[i])
    requires forall i :: 0 <= i < |input| ==> ps[i].part < |input[i]| && n <= |input[i][ps[i].part]| - ps[i].start
    ensures |output| == |input| && |ps'| == |input|
    ensures forall i :: 0 <= i < |input| ==> output[i] == input[i][ps[i].part][ps[i].start..ps[i].start + n]
    ensures forall i :: 0 <= i < |input| ==> ps'[i] == Advance(input[i], ps[i], n)
  {
    output, ps' := [], [];
    for i := 0 to |input|
      invariant |output| == |ps'| == i
      invariant forall k :: 0 <= k < i ==> output[k] == input[k][ps[k].part][ps[k].start..ps[k].start + n]
      invariant forall k :: 0 <= k < i ==> ps'[k] == Advance(input[k], ps[k], n)
    {
      var part, start := ps[i].part, ps[i].start;
      output := output + [input[i][part][start..start + n]];
      var length := |input[i][part]| - start;
      if length > n {
        start := start + n;
      } else {
        part, start := part + 1, 0;
      }
      ps' := ps' + [Position(part, start)];
    }
  }

  /** What a round does to one column. */
  lemma CutColumn<T>(parts: seq<seq<T>>, p: Position, n: nat, left: nat, used: nat)
    requires At(parts, p) && p.part < |parts| && n <= |parts[p.part]| - p.start && |Here(parts, p)| == left
    requires left == 0 ==> |parts| - p.part + used == Trailing(parts, |parts|)
    ensures var p' := Advance(parts, p, n);
            && At(parts, p') && p.part <= p'.part && n <= left && |Here(parts, p')| == left - n
            && (n == |parts[p.part]| - p.start ==> p.part < p'.part)
            && (left == n ==> |parts| - p'.part + (if left == 0 then used + 1 else 0) == Trailing(parts, |parts|))
  {
    AdvanceRows(parts, p, n);
    var p' := Advance(parts, p, n);
    assert |Here(parts, p)| == n + |Here(parts, p')|;
    if left == n && n > 0 {
      assert p'.start == 0;
      NoRowsLeft(parts, p'.part);
    }
  }

  lemma NextRound<T>(input: seq<seq<seq<T>>>, ps: seq<Position>, ps': seq<Position>, n: nat, at: nat, left: nat,
                     used: nat)
    requires Aligned(input, ps, left, used) && |ps'| == |input| && at < |input|
    requires forall i :: 0 <= i < |input| ==> ps[i].part < |input[i]| && n <= |input[i][ps[i].part]| - ps[i].start
    requires forall i :: 0 <= i < |input| ==> ps'[i] == Advance(input[i], ps[i], n)
    requires n == |input[at][ps[at].part]| - ps[at].start
    ensures n <= left && Aligned(input, ps', left - n, if left == 0 then used + 1 else 0)
    ensures Work(input, ps', |input|) < Work(input, ps, |input|)
  {
    hide Here, Advance, At, Trailing;
    forall i | 0 <= i < |input|
      ensures At(input[i], ps'[i]) && ps[i].part <= ps'[i].part && n <= left && |Here(input[i], ps'[i])| == left - n
      ensures i == at ==> ps[i].part < ps'[i].part
      ensures left == n ==>
          |input[i]| - ps'[i].part + (if left == 0 then used + 1 else 0) == Trailing(input[i], |input[i]|)
    {
      CutColumn(input[i], ps[i], n, left, used);
    }
    WorkShrinks(input, ps, ps', |input|, at);
  }

  lemma StartAligned<T>(input: seq<seq<seq<T>>>, ps: seq<Position>, left: nat)
    requires |ps| == |input| && forall i :: 0 <= i < |input| ==> ps[i] == Position(0, 0) && |Rows(input[i])| == left
    ensures Aligned(input, ps, left, 0)
  {
    forall i | 0 <= i < |input|
      ensures At(input[i], ps[i]) && Here(input[i], ps[i]) == Rows(input[i])
      ensures left == 0 ==> |input[i]| == Trailing(input[i], |input[i]|)
    {
      if left == 0 {
        NoRowsLeft(input[i], 0);
      }
    }
  }

  /** Where one column is used up, all are if they have equally many empty parts at
      their end, and only then. */
  lemma UsedUp<T>(input: seq<seq<seq<T>>>, ps: seq<Position>, left: nat, used: nat, i: nat)
    requires Aligned(input, ps, left, used) && i < |input| && ps[i].part == |input[i]|
    ensures left == 0
    ensures (forall j :: 0 <= j < |input| ==> ps[j].part == |input[j]| && ps[j].start == 0)
       <==> (forall j :: 0 <= j < |input| ==> Trailing(input[j], |input[j]|) == Trailing(input[i], |input[i]|))
  {
    assert Here(input[i], ps[i]) == [];
  }

  /** Splits columns into rounds of equally long slices, one slice per column. It
      stops with a failed assertion if the lengths differ, or if one column is
      used up while empty parts are left in another one. */
  method SplitMultiSeries<T>(input: seq<seq<seq<T>>>) returns (ok: bool, rounds: Rounds<T>)
    ensures ok <==> Splittable(input)
    ensures input == [] ==> rounds == More(Start, [])
    ensures ok ==> Even(rounds, |input|) && forall i :: 0 <= i < |input| ==>
        Column(rounds, |input|, i) == Rows(input[i])
    ensures ok && input != [] && NonEmptyParts(input) ==> Filled(rounds)
  {
    hide Rest, Trailing, Here, Aligned, Work, Left, Column;
    if input == [] {
      return true, More(Start, []);
    }
    var sameLength := SameLength(input);
    if !sameLength {
      return false, Start;
    }
    var ps := seq(|input|, _ => Position(0, 0));
    rounds := Start;
    ghost var left: nat, used: nat := |Rows(input[0])|, 0;
    StartAligned(input, ps, left);
    StartColumns(input, ps);
    while true
      invariant Aligned(input, ps, left, used) && Yielded(input, ps, rounds)
      decreases Left(input, ps)
    {
      var done, all, output, ps';
      done, all, output, ps', left, used := NextSlices(input, ps, rounds, left, used);
      if done {
        ok := all;
        return;
      }
      ps, rounds := ps', More(rounds, output);
    }
  }

  ghost function Left<T>(input: seq<seq<seq<T>>>, ps: seq<Position>): (n: nat)
  {
    if |ps| == |input| && forall i :: 0 <= i < |input| ==> At(input[i], ps[i]) then Work(input, ps, |input|) else 0
  }

  /** The slices of each column so far and the rows behind its position are the
      rows of the column. */
  ghost predicate Yielded<T>(input: seq<seq<seq<T>>>, ps: seq<Position>, rounds: Rounds<T>)
  {
    && |ps| == |input| && Even(rounds, |input|)
    && (forall i :: 0 <= i < |input| ==>
       At(input[i], ps[i]) && Column(rounds, |input|, i) + Here(input[i], ps[i]) == Rows(input[i]))
    && (NonEmptyParts(input) ==> Filled(rounds))
  }

  /** One round, or the check that all columns are used up once one is. */
  method NextSlices<T>(input: seq<seq<seq<T>>>, ps: seq<Position>, ghost rounds: Rounds<T>, ghost left: nat,
                       ghost used: nat)
    returns (done: bool, all: bool, output: seq<seq<T>>, ps': seq<Position>, ghost left': nat, ghost used': nat)
    requires input != [] && Aligned(input, ps, left, used) && Yielded(input, ps, rounds)
    ensures done ==> left == 0
    ensures done ==> (all <==> forall i, j :: 0 <= i < |input| && 0 <= j < |input| ==>
        Trailing(input[i], |input[i]|) == Trailing(input[j], |input[j]|))
    ensures done && all ==> forall i :: 0 <= i < |input| ==> Column(rounds, |input|, i) == Rows(input[i])
    ensures !done ==> Aligned(input, ps', left', used') && Yielded(input, ps', More(rounds, output))
    ensures !done ==> Left(input, ps') < Left(input, ps)
  {
    hide Rest, Trailing, Advance, Here, Work, Column, Aligned, NonEmptyParts, Filled, Even;
    ghost var at;
    var shortest;
    done, shortest, at := Shortest(input, ps);
    all, output, ps', left', used' := false, [], [], 0, 0;
    if done {
      all := AllUsedUp(input, ps);
      ghost var i :| 0 <= i < |input| && ps[i].part == |input[i]|;
      UsedUp(input, ps, left, used, i);
      if all {
        NothingLeft(input, ps, rounds);
      }
      return;
    }
    output, ps' := Cut(input, ps, shortest);
    NextRound(input, ps, ps', shortest, at, left, used);
    NextColumns(input, ps, ps', shortest, rounds, output);
    left', used' := left - shortest, if left == 0 then used + 1 else 0;
  }

  method SameLength<T>(input: seq<seq<seq<T>>>) returns (same: bool)
    requires input != []
    ensures same <==> forall i, j :: 0 <= i < |input| && 0 <= j < |input| ==> |Rows(input[i])| == |Rows(input[j])|
    ensures same ==> forall i :: 0 <= i < |input| ==> |Rows(input[i])| == |Rows(input[0])|
  {
    var length := |Rows(input[0])|;
    for i := 0 to |input|
      invariant forall k :: 0 <= k < i ==> |Rows(input[k])| == length
    {
      if |Rows(input[i])| != length {
        return false;
      }
    }
    return true;
  }

  lemma StartColumns<T>(input: seq<seq<seq<T>>>, ps: seq<Position>)
    requires |ps| == |input| && forall i :: 0 <= i < |input| ==> ps[i] == Position(0, 0)
    ensures forall i :: 0 <= i < |input| ==>
        At(input[i], ps[i]) && Column(Start, |input|, i) + Here(input[i], ps[i]) == Rows(input[i])
  {
    forall i | 0 <= i < |input|
      ensures At(input[i], ps[i]) && Column(Start, |input|, i) + Here(input[i], ps[i]) == Rows(input[i])
    {
      assert [] + Rows(input[i]) == Rows(input[i]);
    }
  }

  lemma NothingLeft<T>(input: seq<seq<seq<T>>>, ps: seq<Position>, rounds: Rounds<T>)
    requires |ps| == |input| && Even(rounds, |input|) && forall i :: 0 <= i < |input| ==>
        At(input[i], ps[i]) && ps[i].part == |input[i]|
    requires forall i :: 0 <= i < |input| ==> Column(rounds, |input|, i) + Here(input[i], ps[i]) == Rows(input[i])
    ensures forall i :: 0 <= i < |input| ==> Column(rounds, |input|, i) == Rows(input[i])
  {
    forall i | 0 <= i < |input| ensures Column(rounds, |input|, i) == Rows(input[i]) {
      assert Here(input[i], ps[i]) == [];
    }
  }

  lemma NextColumns<T>(input: seq<seq<seq<T>>>, ps: seq<Position>, ps': seq<Position>, n: nat, rounds: Rounds<T>,
                       output: seq<seq<T>>)
    requires |ps| == |input| == |ps'| == |output| && Even(rounds, |input|)
    requires forall i :: 0 <= i < |input| ==>
        At(input[i], ps[i]) && ps[i].part < |input[i]| && n <= |input[i][ps[i].part]| - ps[i].start
    requires forall i :: 0 <= i < |input| ==> output[i] == input[i][ps[i].part][ps[i].start..ps[i].start + n]
    requires forall i :: 0 <= i < |input| ==> ps'[i] == Advance(input[i], ps[i], n)
    requires forall i :: 0 <= i < |input| ==> Column(rounds, |input|, i) + Here(input[i], ps[i]) == Rows(input[i])
    requires NonEmptyParts(input) ==>
        Filled(rounds) && (input != [] ==> exists i :: 0 <= i < |input| && n == |input[i][ps[i].part]| - ps[i].start)
    ensures Even(More(rounds, output), |input|) && (NonEmptyParts(input) ==> Filled(More(rounds, output)))
    ensures forall i :: 0 <= i < |input| ==>
              At(input[i], ps'[i]) && Column(More(rounds, output), |input|, i) + Here(input[i], ps'[i])
                == Rows(input[i])
  {
    hide Advance, Here, Rest;
    forall i | 0 <= i < |input|
      ensures At(input[i], ps'[i])
          && Column(More(rounds, output), |input|, i) + Here(input[i], ps'[i]) == Rows(input[i])
    {
      AdvanceRows(input[i], ps[i], n);
    }
  }

  // ----- Mapping

  function Mapped<T, U>(rounds: Rounds<T>, f: seq<seq<T>> -> seq<seq<U>>): (parts: seq<seq<U>>)
  {
    match rounds
    case Start => []
    case More(prev, output) => Mapped(prev, f) + f(output)
  }

  /** The k-th row of n equally long columns. */
  function RowAt<T>(columns: seq<seq<T>>, k: nat): (row: seq<T>)
    requires forall i :: 0 <= i < |columns| ==> k < |columns[i]|
  {
    seq(|columns|, i requires 0 <= i < |columns| => columns[i][k])
  }

  predicate EquallyLong<T>(columns: seq<seq<T>>, m: nat)
  {
    forall i :: 0 <= i < |columns| ==> |columns[i]| == m
  }

  /** f works row by row, as g does on one row, on slices of n columns. */
  ghost predicate RowByRow<T(!new), U>(f: seq<seq<T>> -> seq<seq<U>>, g: seq<T> -> U, n: nat)
  {
    forall xs, m :: |xs| == n && EquallyLong(xs, m) ==> IsMapped(Rows(f(xs)), g, xs, m)
  }

  ghost predicate IsMapped<T, U>(rows: seq<U>, g: seq<T> -> U, columns: seq<seq<T>>, m: nat)
    requires EquallyLong(columns, m)
  {
    |rows| == m && forall k :: 0 <= k < m ==> rows[k] == g(RowAt(columns, k))
  }

  lemma {:induction false} RestAppend<T>(a: seq<seq<T>>, b: seq<seq<T>>, k: nat)
    requires k <= |a + b|
    ensures Rest(a + b, k, 0) == if k < |a| then Rest(a, k, 0) + Rows(b) else Rest(b, k - |a|, 0)
    decreases |a + b| - k
  {
    if k < |a + b| {
      RestAppend(a, b, k + 1);
      if k < |a| {
        assert (a + b)[k][0..] == a[k][0..];
        if k + 1 == |a| {
          assert a[k][0..] + [] == a[k][0..];
        }
      } else {
        assert (a + b)[k] == b[k - |a|];
      }
    }
  }

  lemma RowsAppend<T>(a: seq<seq<T>>, b: seq<seq<T>>)
    ensures Rows(a + b) == Rows(a) + Rows(b)
  {
    RestAppend(a, b, 0);
    if a == [] {
      assert a + b == b;
    }
  }

  function Columns<T>(rounds: Rounds<T>, n: nat): (columns: seq<seq<T>>)
    requires Even(rounds, n)
  {
    seq(n, i requires 0 <= i < n => Column(rounds, n, i))
  }

  /** Mapping round by round is mapping the whole columns row by row, wherever the
      rounds end. */
  lemma {:induction false} MappedRows<T(!new), U>(rounds: Rounds<T>, n: nat,
                                                  f: seq<seq<T>> -> seq<seq<U>>, g: seq<T> -> U)
    requires n > 0 && Even(rounds, n) && RowByRow(f, g, n)
    ensures EquallyLong(Columns(rounds, n), |Rows(Mapped(rounds, f))|)
    ensures IsMapped(Rows(Mapped(rounds, f)), g, Columns(rounds, n), |Rows(Mapped(rounds, f))|)
  {
    match rounds
    case Start =>
      assert Rows<U>([]) == [];
    case More(prev, output) =>
      MappedRows(prev, n, f, g);
      var m := |output[0]|;
      assert EquallyLong(output, m) && IsMapped(Rows(f(output)), g, output, m);
      RowsAppend(Mapped(prev, f), f(output));
      MoreRows(prev, n, output, m, Rows(Mapped(prev, f)), Rows(f(output)), g);
  }

  lemma MoreRows<T, U>(prev: Rounds<T>, n: nat, output: seq<seq<T>>, m: nat, a: seq<U>, b: seq<U>, g: seq<T> -> U)
    requires Even(More(prev, output), n) && EquallyLong(output, m) && EquallyLong(Columns(prev, n), |a|)
    requires IsMapped(a, g, Columns(prev, n), |a|) && IsMapped(b, g, output, m)
    ensures EquallyLong(Columns(More(prev, output), n), |a| + m)
    ensures IsMapped(a + b, g, Columns(More(prev, output), n), |a| + m)
  {
    var before, all := Columns(prev, n), Columns(More(prev, output), n);
    forall i | 0 <= i < n ensures all[i] == before[i] + output[i] && |before[i]| == |a| && |output[i]| == m {
    }
    forall k | 0 <= k < |a| + m ensures (a + b)[k] == g(RowAt(all, k)) {
      if k < |a| {
        assert RowAt(all, k) == RowAt(before, k);
      } else {
        assert RowAt(all, k) == RowAt(output, k - |a|);
      }
    }
  }

  /** Applies a function to aligned slices and puts the results together. If the
      function works row by row, the rows of the result are those of the columns
      mapped one by one; so it does not matter how the columns are cut into parts. */
  method MapSeries<T(!new), U>(args: seq<seq<seq<T>>>, f: seq<seq<T>> -> seq<seq<U>>, ghost g: seq<T> -> U)
    returns (ok: bool, result: seq<seq<U>>)
    ensures ok <==> Splittable(args)
    ensures args == [] ==> result == f([])
    ensures ok && args != [] && RowByRow(f, g, |args|) ==>
      EquallyLong(AllRows(args), |Rows(result)|) && IsMapped(Rows(result), g, AllRows(args), |Rows(result)|)
  {
    hide Rest, Trailing, Even, RowByRow, EquallyLong, IsMapped, Splittable;
    var rounds;
    ok, rounds := SplitMultiSeries(args);
    result := Mapped(rounds, f);
    if ok && args != [] && RowByRow(f, g, |args|) {
      MappedRows(rounds, |args|, f, g);
      assert Columns(rounds, |args|) == AllRows(args);
    }
    if args == [] {
      assert Mapped(rounds, f) == Mapped(Start, f) + f([]);
    }
  }

  function AllRows<T>(args: seq<seq<seq<T>>>): (columns: seq<seq<T>>)
  {
    seq(|args|, i requires 0 <= i < |args| => Rows(args[i]))
  }

  /** Columns without empty parts can be split if and only if they are equally long. */
  lemma WithoutEmptyParts<T>(input: seq<seq<seq<T>>>)
    requires NonEmptyParts(input)
    ensures Splittable(input) <==> forall i, j :: 0 <= i < |input| && 0 <= j < |input| ==>
        |Rows(input[i])| == |Rows(input[j])|
  {
    forall i | 0 <= i < |input| ensures Trailing(input[i], |input[i]|) == 0 {
    }
  }

  /** An empty part at the end of one of two equally long columns makes splitting fail. */
  lemma TrailingEmptyPart()
    ensures var input := [[[1]], [[1], []]]; |Rows(input[0])| == |Rows(input[1])| && !Splittable(input)
  {
    var input := [[[1]], [[1], []]];
    assert Rows(input[0]) == [1] && Rows(input[1]) == [1];
    assert Trailing(input[1], 2) == 1 + Trailing(input[1], 1);
    assert Trailing(input[0], 1) == 0;
  }
}
