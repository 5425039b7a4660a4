/** Evaluating a bound expression on a table slice. The evaluator works on
    compressed bitmaps for a whole slice; its meaning is given row by row. */
module Evaluation {
  import opened EwahBitmaps
  import opened Expressions
  import BitRanges
  import Ewah
  import OneRanges
  import Words

  // ----- Slices

  /** The typed cell comparisons of the original, including their fallback to
      false for operands that cannot be compared. */
  datatype Cells = Cells(
    equal: (Data, Data) -> bool,
    less: (Data, Data) -> bool,
    lessEqual: (Data, Data) -> bool,
    greater: (Data, Data) -> bool,
    greaterEqual: (Data, Data) -> bool,
    within: (Data, Data) -> bool,
    contains: (Data, Data) -> bool)

  /** An enumeration column has the keys of its labels. */
  datatype Column = Column(cells: seq<Data>, keys: Option<map<string, int>>)

  datatype Slice = Slice(offset: Option<nat>, columns: seq<Column>, rows: nat, meta: MetaKind -> Data) {
    function Offset(): nat {
      match offset
      case None => 0
      case Some(o) => o
    }

    function End(): nat {
      Offset() + rows
    }

    predicate Ok() {
      forall c :: 0 <= c < |columns| ==> |columns[c].cells| == rows
    }
  }

  /** The extractor is resolved and stands on the left. */
  predicate BoundTo(slice: Slice, l: Operand, r: Operand)
  {
    r.Value? && (l.Meta? || (l.Column? && l.index < |slice.columns|))
  }

  predicate Bound(slice: Slice, e: Expr)
  {
    match e
    case NoExpr => true
    case Conjunction(es) => BoundEach(slice, es)
    case Disjunction(es) => BoundEach(slice, es)
    case Negation(f) => Bound(slice, f)
    case Predicate(l, _, r) => BoundTo(slice, l, r)
  }

  predicate BoundEach(slice: Slice, es: Exprs)
  {
    es.Cons? ==> Bound(slice, es.head) && BoundEach(slice, es.tail)
  }

  // ----- The meaning of an expression on one row

  predicate AnyEqual(lib: Cells, x: Data, items: seq<Data>)
  {
    exists i :: 0 <= i < |items| && lib.equal(x, items[i])
  }

  predicate AnyItemEqual(lib: Cells, items: seq<Data>, y: Data)
  {
    exists i :: 0 <= i < |items| && lib.equal(items[i], y)
  }

  predicate CellHolds(lib: Cells, x: Data, op: RelOp, y: Data)
  {
    match op
    case Equal => lib.equal(x, y)
    case NotEqual => !lib.equal(x, y)
    case Less => lib.less(x, y)
    case LessEqual => lib.lessEqual(x, y)
    case Greater => lib.greater(x, y)
    case GreaterEqual => lib.greaterEqual(x, y)
    case In => if y.List? then AnyEqual(lib, x, y.items) else lib.within(x, y)
    case NotIn => !(if y.List? then AnyEqual(lib, x, y.items) else lib.within(x, y))
    case Ni => if x.List? then AnyItemEqual(lib, x.items, y) else lib.contains(x, y)
    case NotNi => !(if x.List? then AnyItemEqual(lib, x.items, y) else lib.contains(x, y))
  }

  /** A null cell satisfies no comparison except the test for null itself; a
      label that an enumeration does not have satisfies nothing either. */
  predicate ColumnHolds(lib: Cells, column: Column, op: RelOp, y: Data, row: nat)
    requires row < |column.cells|
  {
    var x := column.cells[row];
    if y.Null? then
      (op == Equal && x.Null?) || (op == NotEqual && !x.Null?)
    else if column.keys.Some? && y.Text? then
      y.text in column.keys.value && !x.Null? && CellHolds(lib, x, op, Number(column.keys.value[y.text]))
    else
      !x.Null? && CellHolds(lib, x, op, y)
  }

  predicate RowHolds(lib: Cells, slice: Slice, e: Expr, row: nat)
    requires slice.Ok() && Bound(slice, e) && row < slice.rows
  {
    match e
    case NoExpr => false
    case Conjunction(es) => RowHoldsAll(lib, slice, es, row)
    case Disjunction(es) => RowHoldsAny(lib, slice, es, row)
    case Negation(f) => !RowHolds(lib, slice, f, row)
    case Predicate(l, op, r) =>
      if l.Meta? then CellHolds(lib, slice.meta(l.kind), op, r.data)
      else ColumnHolds(lib, slice.columns[l.index], op, r.data, row)
  }

  predicate RowHoldsAll(lib: Cells, slice: Slice, es: Exprs, row: nat)
    requires slice.Ok() && BoundEach(slice, es) && row < slice.rows
  {
    es.Cons? ==> RowHolds(lib, slice, es.head, row) && RowHoldsAll(lib, slice, es.tail, row)
  }

  predicate RowHoldsAny(lib: Cells, slice: Slice, es: Exprs, row: nat)
    requires slice.Ok() && BoundEach(slice, es) && row < slice.rows
  {
    es.Cons? && (RowHolds(lib, slice, es.head, row) || RowHoldsAny(lib, slice, es.tail, row))
  }

  /** Bits for all ids up to the end of the slice, none of them before it. */
  predicate InSlice(slice: Slice, bits: seq<bool>)
  {
    |bits| == slice.End() && forall j :: 0 <= j < slice.Offset() ==> !bits[j]
  }

  /** The selected rows that satisfy an expression. */
  ghost predicate Picks(lib: Cells, slice: Slice, e: Expr, selection: seq<bool>, result: seq<bool>)
    requires slice.Ok() && Bound(slice, e)
  {
    && InSlice(slice, result)
    && |result| == |selection|
    && forall j :: slice.Offset() <= j < slice.End() ==>
         result[j] == (selection[j] && RowHolds(lib, slice, e, j - slice.Offset()))
  }

  // ----- Bitmap operations

  /** Whether any bit is set. */
  method Any(bm: EwahBitmap) returns (any: bool)
    requires bm.Valid()
    ensures any <==> exists i :: 0 <= i < |bm.Bits()| && bm.Bits()[i]
  {
    hide EwahBitmaps.Encodes, EwahBitmap.Bits, BitRanges.BitRange.Remaining, BitRanges.Run.Ok, BitRanges.Run.Bits;
    ghost var bits := bm.Bits();
    var rng := new BitRanges.BitRange(bm);
    ghost var n: nat := 0;
    AllRead(rng);
    while !rng.Done()
      invariant rng.Valid() && n <= |bits| && rng.Remaining() == bits[n..]
      invariant rng.Done() ==> n == |bits|
      invariant forall j :: 0 <= j < n ==> !bits[j]
      decreases |bm.blocks| - rng.next
    {
      ghost var read := rng.run.Bits();
      RunIsZero(rng.run);
      var data := rng.run.data;
      rng.Next();
      OneRanges.Behind(bits, n, read, rng.Remaining());
      AllRead(rng);
      if data != Words.NONE {
        return true;
      }
      n := n + |read|;
    }
    return false;
  }

  lemma AllRead(rng: BitRanges.BitRange)
    requires rng.Valid()
    ensures rng.Done() ==> rng.Remaining() == []
    ensures rng.bm.Bits()[0..] == rng.bm.Bits()
  {
    hide EwahBitmaps.Encodes, Ewah.Concat, Ewah.Decode, BitRanges.Run.Bits;
  }

  lemma RunIsZero(r: BitRanges.Run)
    requires r.Ok() && r.size > 0
    ensures r.data == Words.NONE <==> forall j :: 0 <= j < r.size ==> !r.Bits()[j]
  {
    if r.data == Words.NONE {
      forall j | 0 <= j < r.size ensures !r.Bits()[j] {
        OneRanges.RunBit(r, j);
      }
    } else {
      var i :| 0 <= i < 64 && r.data[i];
      OneRanges.RunBit(r, if r.IsRun() then 0 else i);
    }
  }

  method Complement(bm: EwahBitmap) returns (result: EwahBitmap)
    requires bm.Valid()
    ensures fresh(result) && result.Valid() && result.Bits() == Words.Not(bm.Bits())
  {
    result := new EwahBitmap.Copy(bm);
    result.Flip();
  }

  method And(l: EwahBitmap, r: EwahBitmap) returns (result: EwahBitmap)
    requires l.Valid() && r.Valid() && |l.Bits()| == |r.Bits()|
    ensures result.Valid() && |result.Bits()| == |l.Bits()|
    ensures forall j :: 0 <= j < |l.Bits()| ==> result.Bits()[j] == (l.Bits()[j] && r.Bits()[j])
  {
    result := BitRanges.BinaryEval((a, b) => a && b, false, false, l, r);
  }

  method Xor(l: EwahBitmap, r: EwahBitmap) returns (result: EwahBitmap)
    requires l.Valid() && r.Valid() && |l.Bits()| == |r.Bits()|
    ensures result.Valid() && |result.Bits()| == |l.Bits()|
    ensures forall j :: 0 <= j < |l.Bits()| ==> result.Bits()[j] == (l.Bits()[j] != r.Bits()[j])
  {
    result := BitRanges.BinaryEval((a, b) => a != b, true, true, l, r);
  }

  /** l & ~r */
  method Without(l: EwahBitmap, r: EwahBitmap) returns (result: EwahBitmap)
    requires l.Valid() && r.Valid() && |l.Bits()| == |r.Bits()|
    ensures result.Valid() && |result.Bits()| == |l.Bits()|
    ensures forall j :: 0 <= j < |l.Bits()| ==> result.Bits()[j] == (l.Bits()[j] && !r.Bits()[j])
  {
    var flipped := Complement(r);
    result := And(l, flipped);
  }

  // ----- Results that grow along the selected ids

  /** No bit is wanted between what is there already and the next id. */
  ghost predicate Growing(have: seq<bool>, want: seq<bool>, next: int)
  {
    have <= want && forall j :: |have| <= j < next && j < |want| ==> !want[j]
  }

  method AppendAt(result: EwahBitmap, id: nat, bit: bool, ghost want: seq<bool>)
    requires result.Valid() && |result.Bits()| <= id < |want|
    requires Growing(result.Bits(), want, id) && want[id] == bit
    modifies result
    ensures result.Valid() && |result.Bits()| == id + 1 && result.Bits() <= want
  {
    hide EwahBitmaps.Encodes, Ewah.Concat;
    NumBits(result);
    result.AppendBits(false, id - result.numBits);
    result.AppendBits(bit, 1);
  }

  method AppendEnd(result: EwahBitmap, end: nat, ghost want: seq<bool>)
    requires result.Valid() && |want| == end && Growing(result.Bits(), want, end)
    modifies result
    ensures result.Valid() && result.Bits() == want
  {
    hide EwahBitmaps.Encodes, Ewah.Concat;
    NumBits(result);
    result.AppendBits(false, end - result.numBits);
  }

  lemma NumBits(bm: EwahBitmap)
    requires bm.Valid()
    ensures bm.numBits == |bm.Bits()|
  {
  }

  // ----- Column evaluators

  /** The wanted result of a predicate on a column. */
  ghost function ColumnBits(lib: Cells, slice: Slice, column: Column, op: RelOp, y: Data,
                            selection: seq<bool>): (bits: seq<bool>)
    requires |column.cells| == slice.rows && InSlice(slice, selection)
    ensures |bits| == |selection|
  {
    seq(|selection|, j requires 0 <= j < |selection| =>
      j >= slice.Offset() && selection[j] && ColumnHolds(lib, column, op, y, j - slice.Offset()))
  }

  /** Positions that are set in want are set in bits, too. */
  ghost predicate Within(want: seq<bool>, bits: seq<bool>)
  {
    forall j :: 0 <= j < |want| && want[j] ==> j < |bits| && bits[j]
  }

  /** An iterator stands on a set bit or at the end, and nothing is wanted before it. */
  ghost predicate AtNext(ones: OneRanges.OneRange, have: seq<bool>, want: seq<bool>)
    reads ones, ones.rng, ones.rng.bm
  {
    && ones.Valid()
    && (!ones.Done() ==> 0 <= ones.Get() < |ones.rng.bm.Bits()| && ones.rng.bm.Bits()[ones.Get()])
    && Growing(have, want, if ones.Done() then |want| else ones.Get())
  }

  method FirstId(bm: EwahBitmap, ghost want: seq<bool>) returns (ones: OneRanges.OneRange)
    requires bm.Valid() && Within(want, bm.Bits())
    ensures fresh(ones) && fresh(ones.rng) && ones.rng.bm == bm && AtNext(ones, [], want)
  {
    hide EwahBitmaps.Encodes, EwahBitmap.Bits, OneRanges.OneRange.Valid;
    ones := new OneRanges.OneRange(bm);
    assert ones.NoneFrom(0);
    Unwanted(ones, 0, [], want);
  }

  method NextId(ones: OneRanges.OneRange, ghost have: seq<bool>, ghost want: seq<bool>)
    requires ones.Valid() && !ones.Done() && Within(want, ones.rng.bm.Bits())
    requires 0 <= ones.Get() && Growing(have, want, ones.Get() + 1)
    modifies ones, ones.rng
    ensures AtNext(ones, have, want)
    ensures !ones.Done() ==> old(ones.Get()) < ones.Get()
  {
    hide EwahBitmaps.Encodes, EwahBitmap.Bits, OneRanges.OneRange.Valid;
    ghost var from := ones.Get() + 1;
    ones.Next();
    Unwanted(ones, from, have, want);
  }

  lemma Unwanted(ones: OneRanges.OneRange, from: nat, have: seq<bool>, want: seq<bool>)
    requires Within(want, ones.rng.bm.Bits()) && ones.NoneFrom(from) && Growing(have, want, from)
    ensures Growing(have, want, if ones.Done() then |want| else ones.Get())
  {
    hide EwahBitmap.Bits;
    forall j | |have| <= j < |want| && (ones.Done() || j < ones.Get())
      ensures !want[j]
    {
    }
  }

  method EvaluateNull(lib: Cells, slice: Slice, column: Column, wanted: bool, selection: EwahBitmap)
    returns (result: EwahBitmap)
    requires |column.cells| == slice.rows && selection.Valid() && InSlice(slice, selection.Bits())
    ensures result.Valid()
    ensures result.Bits() == ColumnBits(lib, slice, column, if wanted then Equal else NotEqual, Null, selection.Bits())
  {
    hide EwahBitmaps.Encodes, EwahBitmap.Bits, OneRanges.OneRange.Valid;
    var op := if wanted then Equal else NotEqual;
    ghost var want := ColumnBits(lib, slice, column, op, Null, selection.Bits());
    result := new EwahBitmap();
    var ones := FirstId(selection, want);
    while !ones.Done()
      invariant result.Valid() && AtNext(ones, result.Bits(), want)
      invariant !ones.Done() ==> |result.Bits()| <= ones.Get()
      decreases if ones.Done() then 0 else |want| - ones.Get()
    {
      var id := ones.Get();
      if column.cells[id - slice.Offset()].Null? == wanted {
        AppendAt(result, id, true, want);
      }
      NextId(ones, result.Bits(), want);
    }
    AppendEnd(result, slice.End(), want);
  }

  lemma ColumnWithin(lib: Cells, slice: Slice, column: Column, op: RelOp, y: Data, selection: seq<bool>)
    requires |column.cells| == slice.rows && InSlice(slice, selection)
    ensures Within(ColumnBits(lib, slice, column, op, y, selection), selection)
  {
    hide ColumnHolds;
  }

  lemma CellAt(lib: Cells, slice: Slice, column: Column, op: RelOp, y: Data, selection: seq<bool>, id: nat)
    requires |column.cells| == slice.rows && InSlice(slice, selection) && id < |selection| && selection[id]
    requires !y.Null? && (column.keys.Some? ==> !y.Text?)
    ensures slice.Offset() <= id
    ensures var cell := column.cells[id - slice.Offset()];
            ColumnBits(lib, slice, column, op, y, selection)[id] == (!cell.Null? && CellHolds(lib, cell, op, y))
  {
    hide CellHolds;
  }

  method EvaluateCells(lib: Cells, slice: Slice, column: Column, op: RelOp, y: Data, selection: EwahBitmap)
    returns (result: EwahBitmap)
    requires |column.cells| == slice.rows && selection.Valid() && InSlice(slice, selection.Bits())
    requires !y.Null? && (column.keys.Some? ==> !y.Text?)
    ensures result.Valid() && result.Bits() == ColumnBits(lib, slice, column, op, y, selection.Bits())
  {
    hide EwahBitmaps.Encodes, EwahBitmap.Bits, OneRanges.OneRange.Valid, CellHolds, ColumnHolds, ColumnBits;
    ghost var want := ColumnBits(lib, slice, column, op, y, selection.Bits());
    ColumnWithin(lib, slice, column, op, y, selection.Bits());
    result := new EwahBitmap();
    var ones := FirstId(selection, want);
    while !ones.Done()
      invariant result.Valid() && AtNext(ones, result.Bits(), want)
      invariant !ones.Done() ==> |result.Bits()| <= ones.Get()
      decreases if ones.Done() then 0 else |want| - ones.Get()
    {
      var id := ones.Get();
      CellAt(lib, slice, column, op, y, selection.Bits(), id);
      var cell := column.cells[id - slice.Offset()];
      if !cell.Null? {
        AppendAt(result, id, CellHolds(lib, cell, op, y), want);
      }
      NextId(ones, result.Bits(), want);
    }
    AppendEnd(result, slice.End(), want);
  }

  method Zeros(n: nat) returns (result: EwahBitmap)
    ensures result.Valid() && result.Bits() == Words.Rep(false, n)
  {
    hide EwahBitmaps.Encodes, Words.Rep;
    result := new EwahBitmap();
    result.AppendBits(false, n);
    assert [] + Words.Rep(false, n) == Words.Rep(false, n);
  }

  method EvaluateColumn(lib: Cells, slice: Slice, column: Column, op: RelOp, y: Data, selection: EwahBitmap)
    returns (result: EwahBitmap)
    requires |column.cells| == slice.rows && selection.Valid() && InSlice(slice, selection.Bits())
    ensures result.Valid() && result.Bits() == ColumnBits(lib, slice, column, op, y, selection.Bits())
  {
    hide EwahBitmaps.Encodes, EwahBitmap.Bits, CellHolds;
    if y.Null? {
      if op == Equal || op == NotEqual {
        result := EvaluateNull(lib, slice, column, op == Equal, selection);
      } else {
        result := Zeros(slice.End());
      }
    } else if column.keys.Some? && y.Text? {
      if y.text in column.keys.value {
        var key := Number(column.keys.value[y.text]);
        result := EvaluateCells(lib, slice, column, op, key, selection);
        assert ColumnBits(lib, slice, column, op, key, selection.Bits())
          == ColumnBits(lib, slice, column, op, y, selection.Bits());
      } else {
        result := Zeros(slice.End());
      }
    } else {
      result := EvaluateCells(lib, slice, column, op, y, selection);
    }
  }

  // ----- Expressions

  method EvaluatePredicate(lib: Cells, slice: Slice, l: Operand, op: RelOp, y: Data, selection: EwahBitmap)
    returns (result: EwahBitmap)
    requires slice.Ok() && Bound(slice, Predicate(l, op, Value(y)))
    requires selection.Valid() && InSlice(slice, selection.Bits())
    ensures result.Valid() && Picks(lib, slice, Predicate(l, op, Value(y)), selection.Bits(), result.Bits())
  {
    hide EwahBitmaps.Encodes, EwahBitmap.Bits, CellHolds, ColumnHolds;
    var some := Any(selection);
    if l.Meta? {
      if !some || CellHolds(lib, slice.meta(l.kind), op, y) {
        return selection;
      }
      result := Zeros(slice.End());
    } else if !some {
      result := Zeros(slice.End());
    } else {
      result := EvaluateColumn(lib, slice, slice.columns[l.index], op, y, selection);
    }
  }

  method EvaluateExpression(lib: Cells, slice: Slice, e: Expr, selection: EwahBitmap) returns (result: EwahBitmap)
    requires slice.Ok() && Bound(slice, e) && selection.Valid() && InSlice(slice, selection.Bits())
    ensures result.Valid() && Picks(lib, slice, e, selection.Bits(), result.Bits())
    decreases e
  {
    hide EwahBitmaps.Encodes, EwahBitmap.Bits, CellHolds, ColumnHolds;
    match e {
      case NoExpr =>
        result := Zeros(slice.End());
      case Negation(f) =>
        var inner := EvaluateExpression(lib, slice, f, selection);
        result := Xor(selection, inner);
      case Conjunction(es) =>
        result := EvaluateConjunction(lib, slice, es, selection);
      case Disjunction(es) =>
        result := EvaluateDisjunction(lib, slice, es, selection);
      case Predicate(l, op, r) =>
        result := EvaluatePredicate(lib, slice, l, op, r.data, selection);
    }
  }

  /** Threads the selection through the operands. */
  method EvaluateConjunction(lib: Cells, slice: Slice, es: Exprs, selection: EwahBitmap) returns (result: EwahBitmap)
    requires slice.Ok() && BoundEach(slice, es) && selection.Valid() && InSlice(slice, selection.Bits())
    ensures result.Valid() && Picks(lib, slice, Conjunction(es), selection.Bits(), result.Bits())
    decreases es
  {
    hide EwahBitmaps.Encodes, EwahBitmap.Bits, CellHolds, ColumnHolds;
    result := selection;
    var rest := es;
    while rest.Cons?
      invariant es nonincreases to rest
      invariant BoundEach(slice, rest) && result.Valid() && InSlice(slice, result.Bits())
      invariant forall j :: slice.Offset() <= j < slice.End() ==>
        (selection.Bits()[j] && RowHoldsAll(lib, slice, es, j - slice.Offset())
         <==> result.Bits()[j] && RowHoldsAll(lib, slice, rest, j - slice.Offset()))
      decreases rest
    {
      var some := Any(result);
      if !some {
        return;
      }
      result := EvaluateExpression(lib, slice, rest.head, result);
      rest := rest.tail;
    }
  }

  /** Threads the rows that no operand has accepted yet through the operands. */
  method EvaluateDisjunction(lib: Cells, slice: Slice, es: Exprs, selection: EwahBitmap) returns (result: EwahBitmap)
    requires slice.Ok() && BoundEach(slice, es) && selection.Valid() && InSlice(slice, selection.Bits())
    ensures result.Valid() && Picks(lib, slice, Disjunction(es), selection.Bits(), result.Bits())
    decreases es
  {
    hide EwahBitmaps.Encodes, EwahBitmap.Bits, CellHolds, ColumnHolds;
    var mask := selection;
    var rest := es;
    while rest.Cons?
      invariant es nonincreases to rest
      invariant BoundEach(slice, rest) && mask.Valid() && InSlice(slice, mask.Bits())
      invariant forall j :: slice.Offset() <= j < slice.End() ==>
        (mask.Bits()[j] ==> selection.Bits()[j])
      invariant forall j :: slice.Offset() <= j < slice.End() && selection.Bits()[j] ==>
        (RowHoldsAny(lib, slice, es, j - slice.Offset())
         <==> !mask.Bits()[j] || RowHoldsAny(lib, slice, rest, j - slice.Offset()))
      decreases rest
    {
      var some := Any(mask);
      if !some {
        assert forall j :: 0 <= j < |mask.Bits()| ==> !mask.Bits()[j];
        return selection;
      }
      var accepted := EvaluateExpression(lib, slice, rest.head, mask);
      mask := Without(mask, accepted);
      rest := rest.tail;
    }
    result := Without(selection, mask);
  }

  // ----- Whole slices

  /** Without hints all rows of the slice are selected, otherwise the hinted ones. */
  ghost function Selected(slice: Slice, hints: seq<bool>): (bits: seq<bool>)
    ensures InSlice(slice, bits)
  {
    seq(slice.End(), j requires 0 <= j < slice.End() =>
      j >= slice.Offset() && (hints == [] || (j < |hints| && hints[j])))
  }

  method NormalizeHints(slice: Slice, hints: EwahBitmap) returns (selection: EwahBitmap)
    requires hints.Valid()
    ensures selection.Valid() && selection.Bits() == Selected(slice, hints.Bits())
  {
    hide EwahBitmaps.Encodes, EwahBitmap.Bits, OneRanges.OneRange.Valid;
    ghost var want := Selected(slice, hints.Bits());
    selection := new EwahBitmap();
    selection.AppendBits(false, slice.Offset());
    NumBits(hints);
    if hints.numBits == 0 {
      selection.AppendBits(true, slice.rows);
      return;
    }
    var ones := FirstId(hints, want);
    while !ones.Done()
      invariant selection.Valid() && AtNext(ones, selection.Bits(), want)
      invariant slice.Offset() <= |selection.Bits()|
      invariant !ones.Done() ==> |selection.Bits()| <= ones.Get() || ones.Get() < slice.Offset() == |selection.Bits()|
      decreases if ones.Done() then 0 else |hints.Bits()| - ones.Get()
    {
      var id := ones.Get();
      if id >= slice.End() {
        break;
      }
      if id >= slice.Offset() {
        AppendAt(selection, id, true, want);
      }
      NextId(ones, selection.Bits(), want);
    }
    AppendEnd(selection, slice.End(), want);
  }

  /** The hinted rows that satisfy an expression, behind as many zeros as the slice is
      offset. */
  ghost predicate Answers(lib: Cells, slice: Slice, e: Expr, hints: seq<bool>, bits: seq<bool>)
    requires slice.Ok() && Bound(slice, e)
  {
    && |bits| == slice.End()
    && (forall j :: 0 <= j < slice.Offset() ==> !bits[j])
    && forall row :: 0 <= row < slice.rows ==>
         (bits[slice.Offset() + row] <==>
            && RowHolds(lib, slice, e, row)
            && (hints == [] || (slice.Offset() + row < |hints| && hints[slice.Offset() + row])))
  }

  /** Evaluates an expression on the hinted rows of a slice. */
  method Evaluate(lib: Cells, e: Expr, slice: Slice, hints: EwahBitmap) returns (result: EwahBitmap)
    requires slice.Ok() && Bound(slice, e) && hints.Valid()
    ensures result.Valid() && Answers(lib, slice, e, hints.Bits(), result.Bits())
  {
    hide EwahBitmaps.Encodes, EwahBitmap.Bits, RowHolds;
    var selection := NormalizeHints(slice, hints);
    result := EvaluateExpression(lib, slice, e, selection);
    forall row | 0 <= row < slice.rows
      ensures result.Bits()[slice.Offset() + row]
          == (selection.Bits()[slice.Offset() + row] && RowHolds(lib, slice, e, row))
    {
      var j := slice.Offset() + row;
      assert j - slice.Offset() == row;
    }
  }

  // ----- Agreement with the reference meaning

  /** The cell comparisons of two values that are alike, for the cells and for data,
      are those of the reference meaning. */
  ghost predicate Reads(cells: Cells, lib: Library, alike: (Data, Data) -> bool)
  {
    forall x, y :: alike(x, y) ==>
      && cells.equal(x, y) == Expressions.Evaluate(lib, x, Equal, y)
      && cells.less(x, y) == Expressions.Evaluate(lib, x, Less, y)
      && cells.lessEqual(x, y) == Expressions.Evaluate(lib, x, LessEqual, y)
      && cells.greater(x, y) == Expressions.Evaluate(lib, x, Greater, y)
      && cells.greaterEqual(x, y) == Expressions.Evaluate(lib, x, GreaterEqual, y)
      && (!y.List? ==> cells.within(x, y) == Expressions.Evaluate(lib, x, In, y))
      && (!x.List? ==> cells.contains(x, y) == Expressions.Evaluate(lib, x, Ni, y))
  }

  /** What an operator compares is alike: the two values, or one of them and each item of
      the other. */
  predicate Alike(alike: (Data, Data) -> bool, x: Data, op: RelOp, y: Data)
  {
    if op in {In, NotIn} && y.List? then forall i :: 0 <= i < |y.items| ==> alike(x, y.items[i])
    else if op in {Ni, NotNi} && x.List? then forall i :: 0 <= i < |x.items| ==> alike(x.items[i], y)
    else alike(x, y)
  }

  /** Text is beside a pattern in a list that it matches, or the other way around, and
      is not itself in the list. */
  predicate MatchesItem(lib: Library, x: Data, items: seq<Data>)
  {
    x !in items && exists i :: 0 <= i < |items| && TextAndPattern(lib, x, items[i]) == Option.Some(true)
  }

  /** A test for membership that only a pattern passes. */
  predicate OnlyPattern(lib: Library, x: Data, op: RelOp, y: Data)
  {
    || (op in {In, NotIn} && y.List? && MatchesItem(lib, x, y.items))
    || (op in {Ni, NotNi} && x.List? && MatchesItem(lib, y, x.items))
  }

  lemma ItemMeaning(cells: Cells, lib: Library, alike: (Data, Data) -> bool, x: Data, items: seq<Data>)
    requires Reads(cells, lib, alike)
    ensures (forall i :: 0 <= i < |items| ==> alike(x, items[i])) ==>
              (AnyEqual(cells, x, items) <==> x in items || MatchesItem(lib, x, items))
    ensures (forall i :: 0 <= i < |items| ==> alike(items[i], x)) ==>
              (AnyItemEqual(cells, items, x) <==> x in items || MatchesItem(lib, x, items))
  {
    hide TextAndPattern;
    forall i | 0 <= i < |items|
      ensures alike(x, items[i]) ==>
        cells.equal(x, items[i]) == (x == items[i] || TextAndPattern(lib, x, items[i]) == Option.Some(true))
      ensures alike(items[i], x) ==>
        cells.equal(items[i], x) == (x == items[i] || TextAndPattern(lib, x, items[i]) == Option.Some(true))
    {
      SameMeaning(lib, x, items[i]);
    }
  }

  lemma SameMeaning(lib: Library, x: Data, y: Data)
    ensures TextAndPattern(lib, y, x) == TextAndPattern(lib, x, y)
    ensures Expressions.Evaluate(lib, x, Equal, y) == (x == y || TextAndPattern(lib, x, y) == Option.Some(true))
    ensures Expressions.Evaluate(lib, y, Equal, x) == Expressions.Evaluate(lib, x, Equal, y)
  {
  }

  /** A test on a cell agrees with the reference meaning, for all operators, if and only
      if it is not one for membership that only a pattern passes. */
  lemma CellMeaning(cells: Cells, lib: Library, alike: (Data, Data) -> bool, x: Data, op: RelOp, y: Data)
    requires Reads(cells, lib, alike) && Alike(alike, x, op, y)
    ensures CellHolds(cells, x, op, y) == Expressions.Evaluate(lib, x, op, y) <==> !OnlyPattern(lib, x, op, y)
  {
    hide MatchesItem, AnyEqual, AnyItemEqual, EvaluateIn;
    OperatorMeaning(lib, x, op, y);
    if op in {In, NotIn, Ni, NotNi} {
      MembershipMeaning(cells, lib, alike, x, if op in {In, NotIn} then In else Ni, y);
    }
  }

  lemma MembershipMeaning(cells: Cells, lib: Library, alike: (Data, Data) -> bool, x: Data, op: RelOp, y: Data)
    requires Reads(cells, lib, alike) && Alike(alike, x, op, y) && (op == In || op == Ni)
    ensures CellHolds(cells, x, op, y) == Expressions.Evaluate(lib, x, op, y) <==> !OnlyPattern(lib, x, op, y)
  {
    hide MatchesItem, AnyEqual, AnyItemEqual;
    if y.List? {
      ItemMeaning(cells, lib, alike, x, y.items);
      MatchesNotIn(lib, x, y.items);
    }
    if x.List? {
      ItemMeaning(cells, lib, alike, y, x.items);
      MatchesNotIn(lib, y, x.items);
    }
  }

  lemma MatchesNotIn(lib: Library, x: Data, items: seq<Data>)
    ensures MatchesItem(lib, x, items) ==> x !in items
  {
  }

  /** The reference meaning of a test on two values, except that a pattern in a list
      stands for all that it matches. */
  predicate ValueTest(lib: Library, x: Data, op: RelOp, y: Data)
  {
    Expressions.Evaluate(lib, x, op, y) != OnlyPattern(lib, x, op, y)
  }

  /** The reference meaning of a bound predicate on a row: a test for null is one for
      being the same as null or not; no other test passes on null or with a label that
      the enumeration does not have; and a label stands for its key. */
  predicate ReferenceTest(lib: Library, slice: Slice, row: nat, l: Operand, op: RelOp, r: Operand)
    requires slice.Ok() && row < slice.rows && BoundTo(slice, l, r)
  {
    if l.Meta? then ValueTest(lib, slice.meta(l.kind), op, r.data)
    else
      var x, keys := slice.columns[l.index].cells[row], slice.columns[l.index].keys;
      if r.data == Null then op in {Equal, NotEqual} && Expressions.Evaluate(lib, x, op, Null)
      else if x == Null then false
      else if keys.Some? && r.data.Text? then
        r.data.text in keys.value && ValueTest(lib, x, op, Number(keys.value[r.data.text]))
      else ValueTest(lib, x, op, r.data)
  }

  function Reference(lib: Library, slice: Slice, row: nat): Test
  {
    (l, op, r) => slice.Ok() && row < slice.rows && BoundTo(slice, l, r) && ReferenceTest(lib, slice, row, l, op, r)
  }

  /** What a bound predicate compares on a row is alike, if it compares anything. */
  predicate AlikeOn(alike: (Data, Data) -> bool, slice: Slice, row: nat, l: Operand, op: RelOp, r: Operand)
    requires slice.Ok() && row < slice.rows && BoundTo(slice, l, r)
  {
    if l.Meta? then Alike(alike, slice.meta(l.kind), op, r.data)
    else
      var column := slice.columns[l.index];
      var x := column.cells[row];
      || x.Null? || r.data.Null? || (column.keys.Some? && r.data.Text? && r.data.text !in column.keys.value)
      || Alike(alike, x, op, Key(column, r.data))
  }

  /** What the predicates of an expression compare on a row is alike. */
  predicate ComparesAlike(alike: (Data, Data) -> bool, slice: Slice, row: nat, e: Expr)
    requires slice.Ok() && Bound(slice, e) && row < slice.rows
  {
    match e
    case NoExpr => true
    case Conjunction(es) => ComparesAlikeEach(alike, slice, row, es)
    case Disjunction(es) => ComparesAlikeEach(alike, slice, row, es)
    case Negation(f) => ComparesAlike(alike, slice, row, f)
    case Predicate(l, op, r) => AlikeOn(alike, slice, row, l, op, r)
  }

  predicate ComparesAlikeEach(alike: (Data, Data) -> bool, slice: Slice, row: nat, es: Exprs)
    requires slice.Ok() && BoundEach(slice, es) && row < slice.rows
  {
    es.Cons? ==> ComparesAlike(alike, slice, row, es.head) && ComparesAlikeEach(alike, slice, row, es.tail)
  }

  lemma LeafMeaning(cells: Cells, lib: Library, alike: (Data, Data) -> bool, slice: Slice, row: nat,
                    l: Operand, op: RelOp, r: Operand)
    requires slice.Ok() && row < slice.rows && BoundTo(slice, l, r)
    requires Reads(cells, lib, alike) && AlikeOn(alike, slice, row, l, op, r)
    ensures RowHolds(cells, slice, Predicate(l, op, r), row) == Reference(lib, slice, row)(l, op, r)
  {
    hide CellHolds, Reads, Alike, OnlyPattern, EvaluateIn;
    if l.Meta? {
      CellMeaning(cells, lib, alike, slice.meta(l.kind), op, r.data);
    } else {
      var column := slice.columns[l.index];
      if Alike(alike, column.cells[row], op, Key(column, r.data)) {
        CellMeaning(cells, lib, alike, column.cells[row], op, Key(column, r.data));
      }
    }
  }

  /** A row satisfies an expression if and only if the expression holds with the
      reference meaning of its predicates, as long as what these compare is alike. */
  lemma {:induction false} RowMeaning(cells: Cells, lib: Library, alike: (Data, Data) -> bool, slice: Slice, e: Expr,
                                      row: nat)
    requires slice.Ok() && Bound(slice, e) && row < slice.rows && Reads(cells, lib, alike)
    requires ComparesAlike(alike, slice, row, e)
    ensures RowHolds(cells, slice, e, row) == Truth(Reference(lib, slice, row), e, false, false)
  {
    hide CellHolds, ColumnHolds, Reads, Alike, OnlyPattern, EvaluateIn, ReferenceTest;
    match e
    case NoExpr =>
    case Conjunction(es) => RowMeaningEach(cells, lib, alike, slice, es, row);
    case Disjunction(es) => RowMeaningEach(cells, lib, alike, slice, es, row);
    case Negation(f) => RowMeaning(cells, lib, alike, slice, f, row);
    case Predicate(l, op, r) => LeafMeaning(cells, lib, alike, slice, row, l, op, r);
  }

  lemma {:induction false} RowMeaningEach(cells: Cells, lib: Library, alike: (Data, Data) -> bool, slice: Slice,
                                          es: Exprs, row: nat)
    requires slice.Ok() && BoundEach(slice, es) && row < slice.rows && Reads(cells, lib, alike)
    requires ComparesAlikeEach(alike, slice, row, es)
    ensures RowHoldsAll(cells, slice, es, row) == TruthAll(Reference(lib, slice, row), es, false, false)
    ensures RowHoldsAny(cells, slice, es, row) == TruthAny(Reference(lib, slice, row), es, false, false)
  {
    hide CellHolds, ColumnHolds, Reads, Alike, OnlyPattern, EvaluateIn, ReferenceTest;
    if es.Cons? {
      RowMeaning(cells, lib, alike, slice, es.head, row);
      RowMeaningEach(cells, lib, alike, slice, es.tail, row);
    }
  }

  /** So the answer to a query has the bits of the hinted rows on which the query holds
      with the reference meaning. */
  lemma AnswerMeaning(cells: Cells, lib: Library, alike: (Data, Data) -> bool, slice: Slice, e: Expr,
                      hints: seq<bool>, bits: seq<bool>)
    requires slice.Ok() && Bound(slice, e) && Reads(cells, lib, alike) && Answers(cells, slice, e, hints, bits)
    requires forall row :: 0 <= row < slice.rows ==> ComparesAlike(alike, slice, row, e)
    ensures var offset := if slice.offset == Option.None then 0 else slice.offset.value;
            && |bits| == offset + slice.rows
            && forall j :: 0 <= j < |bits| ==>
                 (bits[j] <==>
                    && j >= offset && (hints == [] || (j < |hints| && hints[j]))
                    && Truth(Reference(lib, slice, j - offset), e, false, false))
  {
    hide CellHolds, ColumnHolds, RowHolds, Reads, AlikeOn, Reference, Truth, Bound;
    forall row | 0 <= row < slice.rows
      ensures RowHolds(cells, slice, e, row) == Truth(Reference(lib, slice, row), e, false, false)
    {
      RowMeaning(cells, lib, alike, slice, e, row);
    }
    forall j | slice.Offset() <= j < |bits|
      ensures bits[j] <==>
        && (hints == [] || (j < |hints| && hints[j]))
        && Truth(Reference(lib, slice, j - slice.Offset()), e, false, false)
    {
      var row := j - slice.Offset();
      assert bits[slice.Offset() + row] <==>
        && RowHolds(cells, slice, e, row)
        && (hints == [] || (slice.Offset() + row < |hints| && hints[slice.Offset() + row]));
    }
  }

  // ----- Evaluating what normalization leaves

  /** The truth of a bound predicate on a row. */
  predicate TestHolds(cells: Cells, slice: Slice, row: nat, l: Operand, op: RelOp, r: Operand)
    requires slice.Ok() && row < slice.rows
  {
    BoundTo(slice, l, r) && RowHolds(cells, slice, Predicate(l, op, r), row)
  }

  function RowTest(cells: Cells, slice: Slice, row: nat): Test
    requires slice.Ok() && row < slice.rows
  {
    (l, op, r) => slice.Ok() && row < slice.rows && TestHolds(cells, slice, row, l, op, r)
  }

  lemma {:induction false} RowTruth(cells: Cells, slice: Slice, row: nat, e: Expr)
    requires slice.Ok() && row < slice.rows && Bound(slice, e)
    ensures RowHolds(cells, slice, e, row) == Truth(RowTest(cells, slice, row), e, false, false)
  {
    hide CellHolds, ColumnHolds;
    match e
    case NoExpr =>
    case Conjunction(es) => RowTruthEach(cells, slice, row, es);
    case Disjunction(es) => RowTruthEach(cells, slice, row, es);
    case Negation(f) => RowTruth(cells, slice, row, f);
    case Predicate(_, _, _) =>
  }

  lemma {:induction false} RowTruthEach(cells: Cells, slice: Slice, row: nat, es: Exprs)
    requires slice.Ok() && row < slice.rows && BoundEach(slice, es)
    ensures RowHoldsAll(cells, slice, es, row) == TruthAll(RowTest(cells, slice, row), es, false, false)
    ensures RowHoldsAny(cells, slice, es, row) == TruthAny(RowTest(cells, slice, row), es, false, false)
  {
    if es.Cons? {
      RowTruth(cells, slice, row, es.head);
      RowTruthEach(cells, slice, row, es.tail);
    }
  }

  function BoundPair(slice: Slice): (Operand, Operand) -> bool
  {
    (l, r) => BoundTo(slice, l, r)
  }

  /** All predicates of a bound expression are bound. */
  lemma {:induction false} BoundLeaves(slice: Slice, e: Expr)
    ensures Bound(slice, e) == Leaves(BoundPair(slice), e)
  {
    match e
    case NoExpr =>
    case Conjunction(es) => BoundLeavesEach(slice, es);
    case Disjunction(es) => BoundLeavesEach(slice, es);
    case Negation(f) => BoundLeaves(slice, f);
    case Predicate(_, _, _) =>
  }

  lemma {:induction false} BoundLeavesEach(slice: Slice, es: Exprs)
    ensures BoundEach(slice, es) == CheckedEach(true, es, Pair(BoundPair(slice)), Pair(BoundPair(slice)))
  {
    if es.Cons? {
      BoundLeaves(slice, es.head);
      BoundLeavesEach(slice, es.tail);
    }
  }

  /** A bound expression stays bound. */
  lemma NormalizedBound(slice: Slice, e: Expr)
    requires Bound(slice, e)
    ensures Bound(slice, Normalize(e))
  {
    BoundLeaves(slice, e);
    NormalizeLeaves(BoundPair(slice), e);
    BoundLeaves(slice, Normalize(e));
  }

  predicate IsOrder(op: RelOp)
  {
    op in {Less, LessEqual, Greater, GreaterEqual}
  }

  /** The ordering operators on cells are those of a total order on the values that
      can be compared; two others, of different types or not a number, are in no
      order. */
  ghost predicate Compares(cells: Cells, comparable: (Data, Data) -> bool)
  {
    forall x, y ::
      if comparable(x, y) then
        cells.greaterEqual(x, y) == !cells.less(x, y) && cells.greater(x, y) == !cells.lessEqual(x, y)
      else
        !cells.less(x, y) && !cells.lessEqual(x, y) && !cells.greater(x, y) && !cells.greaterEqual(x, y)
  }

  /** Negating an operator complements a test on a cell if and only if the test is
      one for null itself, or neither side is null, a label is one of the
      enumeration, and for an ordering operator the two values are comparable. */
  lemma NegatedTest(cells: Cells, comparable: (Data, Data) -> bool, column: Column, op: RelOp, y: Data, row: nat)
    requires row < |column.cells| && Compares(cells, comparable)
    ensures (ColumnHolds(cells, column, Negate(op), y, row) == !ColumnHolds(cells, column, op, y, row)) <==>
            if y.Null? then op in {Equal, NotEqual}
            else
              && !column.cells[row].Null? && (column.keys.Some? && y.Text? ==> y.text in column.keys.value)
              && (IsOrder(op) ==> comparable(column.cells[row], Key(column, y)))
  {
    hide CellHolds;
    NegatedCell(cells, comparable, column.cells[row], op, Key(column, y));
  }

  lemma NegatedCell(cells: Cells, comparable: (Data, Data) -> bool, x: Data, op: RelOp, y: Data)
    requires Compares(cells, comparable)
    ensures CellHolds(cells, x, Negate(op), y) == !CellHolds(cells, x, op, y) <==> (IsOrder(op) ==> comparable(x, y))
  {
    hide AnyEqual, AnyItemEqual;
  }

  /** What a value is compared as: the key of a label, or itself. */
  function Key(column: Column, y: Data): Data
  {
    if column.keys.Some? && y.Text? && y.text in column.keys.value then Number(column.keys.value[y.text]) else y
  }

  /** Negating the operator of a bound predicate complements it on a row. */
  predicate Negatable(comparable: (Data, Data) -> bool, slice: Slice, row: nat, l: Operand, op: RelOp, r: Operand)
    requires slice.Ok() && row < slice.rows && BoundTo(slice, l, r)
  {
    if l.Meta? then IsOrder(op) ==> comparable(slice.meta(l.kind), r.data)
    else
      var column := slice.columns[l.index];
      var x := column.cells[row];
      if r.data.Null? then op in {Equal, NotEqual}
      else
        && !x.Null?
        && (column.keys.Some? && r.data.Text? ==> r.data.text in column.keys.value)
        && (IsOrder(op) ==> comparable(x, Key(column, r.data)))
  }

  lemma NegatablePredicate(cells: Cells, comparable: (Data, Data) -> bool, slice: Slice, row: nat,
                           l: Operand, op: RelOp, r: Operand)
    requires slice.Ok() && row < slice.rows && BoundTo(slice, l, r) && Compares(cells, comparable)
    ensures Respects(RowTest(cells, slice, row))(l, op, r) == Negatable(comparable, slice, row, l, op, r)
  {
    hide CellHolds, ColumnHolds;
    var v := RowTest(cells, slice, row);
    RespectsMeans(v, l, op, r);
    assert Respects(v)(l, op, r)
      == (TestHolds(cells, slice, row, l, Negate(op), r) == !TestHolds(cells, slice, row, l, op, r));
    if l.Meta? {
      NegatedCell(cells, comparable, slice.meta(l.kind), op, r.data);
    } else {
      NegatedTest(cells, comparable, slice.columns[l.index], op, r.data, row);
    }
  }

  /** The predicates of a query that are negated in its normal form are negatable on a
      row, and no null leaf is below an odd number of negations. */
  ghost predicate NegatesWell(comparable: (Data, Data) -> bool, slice: Slice, row: nat, e: Expr)
    requires slice.Ok() && row < slice.rows
  {
    Checked(true, e, ANY, Leaf(false, NegatableIn(comparable, slice, row)))
  }

  ghost function NegatableIn(comparable: (Data, Data) -> bool, slice: Slice, row: nat): Test
    requires slice.Ok() && row < slice.rows
  {
    (l, op, r) => slice.Ok() && row < slice.rows && BoundTo(slice, l, r) && Negatable(comparable, slice, row, l, op, r)
  }

  /** Then the row satisfies the query if and only if it satisfies the normal form. */
  lemma NormalizedRow(cells: Cells, comparable: (Data, Data) -> bool, slice: Slice, row: nat, e: Expr)
    requires slice.Ok() && row < slice.rows && Bound(slice, e) && Compares(cells, comparable)
    requires NegatesWell(comparable, slice, row, e)
    ensures Bound(slice, Normalize(e))
    ensures RowHolds(cells, slice, Normalize(e), row) == RowHolds(cells, slice, e, row)
  {
    hide CellHolds, ColumnHolds, Negatable;
    var v := RowTest(cells, slice, row);
    NormalizedBound(slice, e);
    RowTruth(cells, slice, row, e);
    RowTruth(cells, slice, row, Normalize(e));
    NegatesRespect(cells, comparable, slice, row, e);
    SameTruth(v, e);
  }

  lemma NegatesRespect(cells: Cells, comparable: (Data, Data) -> bool, slice: Slice, row: nat,
                       e: Expr)
    requires slice.Ok() && row < slice.rows && Bound(slice, e) && Compares(cells, comparable)
    requires NegatesWell(comparable, slice, row, e)
    ensures var v := RowTest(cells, slice, row); Checked(true, e, Leaf(true, Flips(v)), Leaf(false, Respects(v)))
  {
    hide CellHolds, ColumnHolds, Negatable;
    var v := RowTest(cells, slice, row);
    BoundLeaves(slice, e);
    BothChecked(e, Pair(BoundPair(slice)), Pair(BoundPair(slice)), ANY,
      Leaf(false, NegatableIn(comparable, slice, row)));
    forall l, op, r | BoundTo(slice, l, r)
      ensures Flips(v)(l, op, r)
      ensures NegatableIn(comparable, slice, row)(l, op, r) ==> Respects(v)(l, op, r)
    {
      RespectsMeans(v, l, op, r);
      NegatablePredicate(cells, comparable, slice, row, l, op, r);
    }
    CheckedWeaker(true, e, Both(Pair(BoundPair(slice)), ANY),
                  Both(Pair(BoundPair(slice)), Leaf(false, NegatableIn(comparable, slice, row))),
                  true, Leaf(true, Flips(v)), Leaf(false, Respects(v)));
  }

  /** A query over a set of predicates, without null leaves below an odd number of
      negations, selects the row if and only if its normal form does. */
  ghost predicate SameRow(cells: Cells, slice: Slice, row: nat, s: Test, e: Expr)
    requires slice.Ok() && row < slice.rows
  {
    Uses(s, e) ==>
      && Bound(slice, e) && Bound(slice, Normalize(e))
      && RowHolds(cells, slice, Normalize(e), row) == RowHolds(cells, slice, e, row)
  }

  /** All queries over a set of bound predicates do so if and only if each of these
      predicates is negatable on the row. */
  lemma NormalizedExactly(cells: Cells, comparable: (Data, Data) -> bool, slice: Slice, row: nat, s: Test)
    requires slice.Ok() && row < slice.rows && Compares(cells, comparable)
    requires forall l, op, r :: s(l, op, r) ==> BoundTo(slice, l, r)
    ensures (forall e :: SameRow(cells, slice, row, s, e))
       <==> forall l, op, r :: s(l, op, r) ==> Negatable(comparable, slice, row, l, op, r)
  {
    hide CellHolds, ColumnHolds, Negatable, Uses, RowTest;
    var v := RowTest(cells, slice, row);
    forall e ensures SameRow(cells, slice, row, s, e) == Agrees(v, s, e) {
      if Uses(s, e) {
        UsesBound(slice, s, e);
        NormalizedBound(slice, e);
        RowTruth(cells, slice, row, e);
        RowTruth(cells, slice, row, Normalize(e));
      }
    }
    SameTruthExactly(v, s);
    forall l, op, r | s(l, op, r)
      ensures Respects(v)(l, op, r) == Negatable(comparable, slice, row, l, op, r)
    {
      NegatablePredicate(cells, comparable, slice, row, l, op, r);
    }
  }

  lemma UsesBound(slice: Slice, s: Test, e: Expr)
    requires Uses(s, e) && forall l, op, r :: s(l, op, r) ==> BoundTo(slice, l, r)
    ensures Bound(slice, e)
  {
    var bound := Pair(BoundPair(slice));
    CheckedWeaker(true, e, Leaf(true, s), Leaf(false, s), true, bound, bound);
    BoundLeaves(slice, e);
  }

  /** On a null cell, an expression and its normal form can differ. */
  lemma NullCell(cells: Cells, meta: MetaKind -> Data)
    ensures var slice := Slice(None, [Column.Column([Null], None)], 1, meta);
            var e := Negation(Predicate(Operand.Column(0), Equal, Value(Number(5))));
            && slice.Ok() && Bound(slice, e) && Bound(slice, Normalize(e))
            && RowHolds(cells, slice, e, 0) && !RowHolds(cells, slice, Normalize(e), 0)
  {
    var e := Negation(Predicate(Operand.Column(0), Equal, Value(Number(5))));
    assert Normalize(e) == Predicate(Operand.Column(0), NotEqual, Value(Number(5)));
  }
}
