/** Iterating over a compressed bitmap run by run, and the bitwise operations
    that are built on two such iterations. */
module BitRanges {
  import opened Words
  import opened Ewah
  import opened EwahBitmaps

  // ----- Bit sequences represented by one word

  /** Beyond 64 bits the word must be all zeros or all ones; below, the unused
      bits are zeros. */
  datatype Run = Run(data: Word, size: nat) {
    ghost predicate Ok() {
      && (size > 64 ==> AllOrNone(data))
      && (forall i :: size <= i < 64 ==> !data[i])
    }

    predicate IsRun() {
      size > 64
    }

    ghost function Bits(): (bits: seq<bool>)
      ensures |bits| == size
    {
      if size <= 64 then data[..size] else Rep(data[0], size)
    }
  }

  const EMPTY := Run(NONE, 0)

  function MakeRun(data: Word, n: nat): Run
  {
    Run(if n < 64 then And(data, LsbMask(n)) else data, n)
  }

  function Drop(r: Run, n: nat): Run
  {
    if n < r.size then MakeRun(if r.IsRun() then r.data else Shr(r.data, n), r.size - n) else EMPTY
  }

  lemma MakeRunBits(data: Word, n: nat)
    requires n > 64 ==> AllOrNone(data)
    ensures MakeRun(data, n).Ok()
    ensures n <= 64 ==> MakeRun(data, n).Bits() == data[..n]
    ensures AllOrNone(data) ==> MakeRun(data, n).Bits() == Rep(data[0], n)
  {
    assert n < 64 ==> And(data, LsbMask(n))[..n] == data[..n];
  }

  lemma DropBits(r: Run, n: nat)
    requires r.Ok() && n <= r.size
    ensures Drop(r, n).Ok() && Drop(r, n).Bits() == r.Bits()[n..]
  {
    if n < r.size {
      if r.IsRun() {
        MakeRunBits(r.data, r.size - n);
      } else {
        MakeRunBits(Shr(r.data, n), r.size - n);
        assert Shr(r.data, n)[..r.size - n] == r.data[..r.size][n..];
      }
    }
  }

  // ----- The iterator

  class BitRange {
    const bm: EwahBitmap
    var next: nat
    var numDirty: nat
    var run: Run

    predicate Done()
      reads this, bm
    {
      next == |bm.blocks|
    }

    ghost predicate Valid()
      reads this, bm
    {
      && bm.Valid()
      && next <= |bm.blocks|
      && (!Done() ==> run.Ok() && run.size > 0)
    }

    /** The bits of the current run and of all later ones. */
    ghost function Remaining(): (bits: seq<bool>)
      requires Valid()
      reads this, bm
    {
      if Done() then [] else run.Bits() + Decode(bm.blocks, bm.numBits, next + 1, numDirty)
    }

    constructor (bm: EwahBitmap)
      requires bm.Valid()
      ensures Valid() && this.bm == bm
      ensures Remaining() == bm.Bits()
    {
      this.bm := bm;
      next, numDirty, run := 0, 0, EMPTY;
      new;
      hide Groups, Flat, Decode, Concat, Rep;
      DecodesToBits(bm.blocks, bm.lastMarker, bm.numBits, bm.words, bm.tail);
      if bm.numBits != 0 {
        Scan();
      }
    }

    method Next()
      requires Valid() && !Done()
      modifies this
      ensures Valid() && old(run.Bits()) + Remaining() == old(Remaining())
      ensures next > old(next)
    {
      hide Encodes, Rep;
      next := next + 1;
      if next != |bm.blocks| {
        hide Decode;
        Scan();
      }
    }

    /** Reads the run that starts at the current block. */
    method Scan()
      requires bm.Valid() && next < |bm.blocks|
      modifies this
      ensures Valid() && !Done() && next >= old(next)
      ensures Remaining() == old(Decode(bm.blocks, bm.numBits, next, numDirty))
      decreases |bm.blocks| - next, 1
    {
      hide Encodes, Decode, Rep, Type, Clean, Dirty, AllOrNone, And, LsbMask;
      var blocks := bm.blocks;
      var block := blocks[next];
      DecodeStep(blocks, bm.numBits, next, numDirty);
      if next + 1 == |blocks| {
        var partial := bm.numBits % 64;
        var width := if partial == 0 then 64 else partial;
        MakeRunBits(block, width);
        run := MakeRun(block, width);
        assert run.Bits() + [] == run.Bits();
      } else if numDirty > 0 {
        numDirty := numDirty - 1;
        MakeRunBits(block, 64);
        run := MakeRun(block, 64);
        assert block[..64] == block;
      } else {
        ScanMarker();
      }
    }

    /** Reads a marker. Without clean blocks it moves on to the next block;
        otherwise it merges clean runs of the same type across markers. */
    method ScanMarker()
      requires bm.Valid() && next + 1 < |bm.blocks| && numDirty == 0
      modifies this
      ensures Valid() && !Done() && next >= old(next)
      ensures Remaining() == old(Decode(bm.blocks, bm.numBits, next, numDirty))
      decreases |bm.blocks| - next, 0
    {
      hide Encodes, Decode, Rep, Type, Clean, Dirty, AllOrNone, And, LsbMask, Word0;
      var blocks := bm.blocks;
      var block := blocks[next];
      DecodeStep(blocks, bm.numBits, next, 0);
      var numClean := Clean(block);
      numDirty := Dirty(block);
      EmptyRep(Type(block));
      if numClean == 0 {
        next := next + 1;
        Scan();
        return;
      }
      var data := Word0(Type(block));
      var length := numClean * 64;
      while numDirty == 0 && next + 2 < |blocks|
        invariant old(next) <= next < |blocks| - 1
        invariant length > 0
        invariant Rep(Type(block), length) + Decode(blocks, bm.numBits, next + 1, numDirty)
               == old(Decode(bm.blocks, bm.numBits, next, numDirty))
        decreases |blocks| - next
      {
        var nextMarker := blocks[next + 1];
        if Type(nextMarker) != Type(block) {
          break;
        }
        DecodeStep(blocks, bm.numBits, next + 1, 0);
        MergeRuns(Type(block), length, 64 * Clean(nextMarker), Decode(blocks, bm.numBits, next + 2, Dirty(nextMarker)));
        length := length + Clean(nextMarker) * 64;
        numDirty := Dirty(nextMarker);
        next := next + 1;
      }
      Word0Clean(Type(block));
      MakeRunBits(data, length);
      run := MakeRun(data, length);
    }
  }

  function MarkerBits(m: Word): seq<bool>
  {
    Rep(Type(m), 64 * Clean(m))
  }

  lemma DecodeStep(blocks: seq<Word>, n: nat, pos: nat, dirty: nat)
    requires pos < |blocks|
    ensures Decode(blocks, n, |blocks|, dirty) == []
    ensures pos + 1 == |blocks| ==> Decode(blocks, n, pos, dirty) == blocks[pos][..LastWidth(n)]
    ensures pos + 1 < |blocks| && dirty > 0 ==>
              Decode(blocks, n, pos, dirty) == blocks[pos] + Decode(blocks, n, pos + 1, dirty - 1)
    ensures pos + 1 < |blocks| && dirty == 0 ==>
              Decode(blocks, n, pos, dirty) == MarkerBits(blocks[pos]) + Decode(blocks, n, pos + 1, Dirty(blocks[pos]))
  {
    hide Rep, Type, Clean, Dirty;
    assert Decode(blocks, n, |blocks|, dirty) == [];
  }

  lemma EmptyRep(b: bool)
    ensures Rep(b, 64 * 0) == [] && forall s: seq<bool> :: [] + s == s
  {
  }

  lemma MergeRuns(b: bool, m: nat, n: nat, rest: seq<bool>)
    ensures Rep(b, m) + (Rep(b, n) + rest) == Rep(b, m + n) + rest
  {
    RepSum(b, m, n);
    Assoc(Rep(b, m), Rep(b, n), rest);
  }

  // ----- Appending and combining bitmaps

  method AppendRunTo(bm: EwahBitmap, xs: Run)
    requires bm.Valid() && xs.Ok()
    modifies bm
    ensures bm.Valid() && bm.Bits() == old(bm.Bits()) + xs.Bits()
  {
    hide Encodes, Concat, Rep, AllOrNone;
    if xs.IsRun() {
      CleanBool(xs.data);
      bm.AppendBits(xs.data != NONE, xs.size);
    } else if xs.size > 0 {
      bm.AppendBlock(xs.data, xs.size);
    } else {
      assert xs.Bits() == [];
    }
  }

  lemma CleanBool(w: Word)
    ensures AllOrNone(w) ==> (w[0] <==> w != NONE)
  {
  }

  /** Appends all bits of another bitmap, run by run. */
  method Append(bm: EwahBitmap, other: EwahBitmap)
    requires bm.Valid() && other.Valid() && bm != other
    modifies bm
    ensures bm.Valid() && bm.Bits() == old(bm.Bits()) + other.Bits()
  {
    hide Encodes, Concat, Decode;
    var range := new BitRange(other);
    ghost var before := bm.Bits();
    AppendRest(bm, range);
  }

  /** Drains an iterator into a bitmap. */
  method AppendRest(bm: EwahBitmap, range: BitRange)
    requires bm.Valid() && range.Valid() && bm != range.bm
    modifies bm, range
    ensures bm.Valid() && range.Valid() && range.Done()
    ensures bm.Bits() == old(bm.Bits()) + old(range.Remaining())
  {
    hide Encodes, Concat, Decode;
    ghost var before := bm.Bits();
    assert before + [] == before;
    while !range.Done()
      invariant bm.Valid() && range.Valid()
      invariant bm.Bits() + range.Remaining() == before + old(range.Remaining())
      decreases |range.bm.blocks| - range.next
    {
      ghost var soFar := bm.Bits();
      ghost var r := range.run.Bits();
      AppendRunTo(bm, range.run);
      range.Next();
      Assoc(soFar, r, range.Remaining());
    }
  }

  function OpWord(f: (bool, bool) -> bool, a: Word, b: Word): (r: Word)
  {
    seq(64, i requires 0 <= i < 64 => f(a[i], b[i]))
  }

  function Zip(f: (bool, bool) -> bool, a: seq<bool>, b: seq<bool>): (r: seq<bool>)
    requires |a| == |b|
  {
    seq(|a|, i requires 0 <= i < |a| => f(a[i], b[i]))
  }

  /** Bit by bit, the shorter operand extended: where only one operand has bits,
      they are kept or replaced by zeros. */
  function Combined(f: (bool, bool) -> bool, keepLeft: bool, keepRight: bool, l: seq<bool>,
                    r: seq<bool>): (bits: seq<bool>)
    ensures |bits| == if |l| <= |r| then |r| else |l|
  {
    seq(if |l| <= |r| then |r| else |l|, i requires 0 <= i < if |l| <= |r| then |r| else |l| =>
      if i < |l| && i < |r| then f(l[i], r[i])
      else if i < |l| then keepLeft && l[i]
      else keepRight && r[i])
  }

  /** The operation on each two bits; behind the shorter operand, the rest of the longer
      one or as many zeros. */
  predicate BitByBit(f: (bool, bool) -> bool, keepLeft: bool, keepRight: bool, l: seq<bool>, r: seq<bool>,
                     bits: seq<bool>)
  {
    && |l| <= |bits| && |r| <= |bits|
    && (forall i :: 0 <= i < Min(|l|, |r|) ==> bits[i] == f(l[i], r[i]))
    && (|r| <= |l| ==> bits[|r|..] == if keepLeft then l[|r|..] else Rep(false, |l| - |r|))
    && (|l| <= |r| ==> bits[|l|..] == if keepRight then r[|l|..] else Rep(false, |r| - |l|))
  }

  lemma CombinedBits(f: (bool, bool) -> bool, keepLeft: bool, keepRight: bool, l: seq<bool>, r: seq<bool>)
    ensures BitByBit(f, keepLeft, keepRight, l, r, Combined(f, keepLeft, keepRight, l, r))
  {
  }

  lemma OpRun(f: (bool, bool) -> bool, a: Run, b: Run, n: nat)
    requires a.Ok() && b.Ok() && n <= a.size && n <= b.size
    requires n == a.size || n == b.size
    ensures MakeRun(OpWord(f, a.data, b.data), n).Ok()
    ensures MakeRun(OpWord(f, a.data, b.data), n).Bits() == Zip(f, a.Bits()[..n], b.Bits()[..n])
  {
    var d := OpWord(f, a.data, b.data);
    if n > 64 {
      var bit := f(a.data[0], b.data[0]);
      assert d == Rep(bit, 64);
      MakeRunBits(d, n);
      assert Zip(f, a.Bits()[..n], b.Bits()[..n]) == Rep(bit, n);
    } else {
      MakeRunBits(d, n);
      forall i | 0 <= i < n
        ensures d[..n][i] == Zip(f, a.Bits()[..n], b.Bits()[..n])[i]
      {
      }
    }
  }

  /** The part of a combination that two equally long prefixes settle. */
  lemma CombinedPrefix(f: (bool, bool) -> bool, kl: bool, kr: bool, l: seq<bool>, r: seq<bool>, k: nat, n: nat)
    requires k + n <= |l| && k + n <= |r|
    ensures Combined(f, kl, kr, l, r)[..k] + Zip(f, l[k..k + n], r[k..k + n]) == Combined(f, kl, kr, l, r)[..k + n]
  {
    var c := Combined(f, kl, kr, l, r);
    var z := Zip(f, l[k..k + n], r[k..k + n]);
    assert |c[..k] + z| == k + n;
    forall i | 0 <= i < k + n
      ensures (c[..k] + z)[i] == c[..k + n][i]
    {
      if k <= i {
        assert z[i - k] == f(l[i], r[i]);
      }
    }
  }

  /** The part that is left when one operand is used up. */
  lemma CombinedRest(f: (bool, bool) -> bool, kl: bool, kr: bool, l: seq<bool>, r: seq<bool>, k: nat)
    requires k == |l| || k == |r|
    requires k <= |l| && k <= |r|
    ensures var c := Combined(f, kl, kr, l, r);
            var kept := (if kl then l[k..] else []) + (if kr then r[k..] else []);
            k + |kept| <= |c| && c == c[..k] + kept + Rep(false, |c| - k - |kept|)
  {
  }

  /** The current run and the rest of the iterator are the bits from k on. */
  ghost predicate Walk(range: BitRange, run: Run, bits: seq<bool>, k: nat)
    reads range, range.bm
  {
    && range.Valid() && run.Ok()
    && (run.size == 0 ==> range.Done())
    && k <= |bits| && run.Bits() + range.Remaining() == bits[k..]
  }

  /** The current run, or the next one of the iterator once it is used up. */
  method TakeRun(range: BitRange, run: Run, ghost bits: seq<bool>, ghost k: nat) returns (r: Run)
    requires range.Valid() && run.Ok() && k <= |bits| && run.Bits() + range.Remaining() == bits[k..]
    modifies range
    ensures Walk(range, r, bits, k)
    ensures if run.size == 0 && !old(range.Done()) then range.next > old(range.next)
            else range.next == old(range.next) && r == run
  {
    hide Encodes, Concat, Decode, Rep, AllOrNone;
    r := run;
    if r.size == 0 && !range.Done() {
      assert run.Bits() == [];
      r := range.run;
      range.Next();
    }
  }

  lemma WalkDrop(run: Run, rest: seq<bool>, bits: seq<bool>, k: nat, n: nat)
    requires run.Ok() && k <= |bits| && n <= run.size && run.Bits() + rest == bits[k..]
    ensures k + n <= |bits| && run.Bits()[..n] == bits[k..k + n]
    ensures Drop(run, n).Ok() && Drop(run, n).Bits() + rest == bits[k + n..]
  {
    hide Run.Bits, Drop;
    DropBits(run, n);
    var b := run.Bits();
    assert |b + rest| == |bits| - k;
    assert b == b[..n] + b[n..];
    assert bits[k + n..] == bits[k..][n..];
    assert bits[k..k + n] == bits[k..][..n];
  }

  /** Combines as many bits as both current runs hold. */
  method CombineRuns(f: (bool, bool) -> bool, ghost kl: bool, ghost kr: bool, result: EwahBitmap,
                     lrun: Run, rrun: Run, ghost lb: seq<bool>, ghost rb: seq<bool>,
                     ghost lrest: seq<bool>, ghost rrest: seq<bool>) returns (n: nat)
    requires result.Valid() && lrun.Ok() && rrun.Ok() && lrun.size > 0 && rrun.size > 0
    requires var k := |result.Bits()|;
             && k <= |lb| && k <= |rb| && result.Bits() == Combined(f, kl, kr, lb, rb)[..k]
             && lrun.Bits() + lrest == lb[k..] && rrun.Bits() + rrest == rb[k..]
    modifies result
    ensures n == Min(lrun.size, rrun.size)
    ensures result.Valid() && |result.Bits()| == old(|result.Bits()|) + n
    ensures var k := |result.Bits()|;
            && k <= |lb| && k <= |rb| && result.Bits() == Combined(f, kl, kr, lb, rb)[..k]
            && Drop(lrun, n).Ok() && Drop(lrun, n).Bits() + lrest == lb[k..]
            && Drop(rrun, n).Ok() && Drop(rrun, n).Bits() + rrest == rb[k..]
  {
    hide Encodes, Concat, Combined, Zip, OpWord, MakeRun, Drop, Rep, AllOrNone, Run.Bits;
    ghost var k := |result.Bits()|;
    n := Min(lrun.size, rrun.size);
    OpRun(f, lrun, rrun, n);
    WalkDrop(lrun, lrest, lb, k, n);
    WalkDrop(rrun, rrest, rb, k, n);
    CombinedPrefix(f, kl, kr, lb, rb, k, n);
    AppendRunTo(result, MakeRun(OpWord(f, lrun.data, rrun.data), n));
  }

  /** Appends what is left of an operand, if it is to be kept. */
  method Fill(result: EwahBitmap, keep: bool, range: BitRange, run: Run)
    requires result.Valid() && range.Valid() && run.Ok() && result != range.bm
    modifies result, range
    ensures result.Valid()
    ensures result.Bits() == old(result.Bits()) + if keep then run.Bits() + old(range.Remaining()) else []
  {
    hide Encodes, Concat, Decode, Rep, AllOrNone;
    if keep {
      Assoc(result.Bits(), run.Bits(), range.Remaining());
      AppendRunTo(result, run);
      AppendRest(result, range);
    } else {
      assert result.Bits() + [] == result.Bits();
    }
  }

  /** One round: combines the current runs and moves on where one is used up. */
  method Advance(f: (bool, bool) -> bool, ghost kl: bool, ghost kr: bool, result: EwahBitmap,
                 left: BitRange, lrun: Run, right: BitRange, rrun: Run, ghost lb: seq<bool>, ghost rb: seq<bool>)
    returns (lrun': Run, rrun': Run)
    requires result.Valid() && result != left.bm && result != right.bm && left != right
    requires Walk(left, lrun, lb, |result.Bits()|) && Walk(right, rrun, rb, |result.Bits()|)
    requires lrun.size > 0 && rrun.size > 0
    requires result.Bits() == Combined(f, kl, kr, lb, rb)[..|result.Bits()|]
    modifies result, left, right
    ensures result.Valid() && |result.Bits()| <= |Combined(f, kl, kr, lb, rb)|
    ensures result.Bits() == Combined(f, kl, kr, lb, rb)[..|result.Bits()|]
    ensures Walk(left, lrun', lb, |result.Bits()|) && Walk(right, rrun', rb, |result.Bits()|)
    ensures old(left.next) <= left.next <= |left.bm.blocks| && old(right.next) <= right.next <= |right.bm.blocks|
    ensures left.next + right.next > old(left.next + right.next) || lrun'.size + rrun'.size < lrun.size + rrun.size
  {
    hide Encodes, Concat, Decode, Combined, Drop, Rep, AllOrNone, Run.Bits;
    var n := CombineRuns(f, kl, kr, result, lrun, rrun, lb, rb, left.Remaining(), right.Remaining());
    lrun' := TakeRun(left, Drop(lrun, n), lb, |result.Bits()|);
    rrun' := TakeRun(right, Drop(rrun, n), rb, |result.Bits()|);
  }

  /** Completes the result once one operand is used up. */
  method FillRest(ghost f: (bool, bool) -> bool, keepLeft: bool, keepRight: bool, result: EwahBitmap,
                  left: BitRange, lrun: Run, right: BitRange, rrun: Run, ghost lb: seq<bool>, ghost rb: seq<bool>)
    requires result.Valid() && result != left.bm && result != right.bm && left != right
    requires left.bm.Valid() && left.bm.Bits() == lb && right.bm.Valid() && right.bm.Bits() == rb
    requires Walk(left, lrun, lb, |result.Bits()|) && Walk(right, rrun, rb, |result.Bits()|)
    requires lrun.size == 0 || rrun.size == 0
    requires result.Bits() == Combined(f, keepLeft, keepRight, lb, rb)[..|result.Bits()|]
    modifies result, left, right
    ensures result.Valid() && result.Bits() == Combined(f, keepLeft, keepRight, lb, rb)
  {
    hide Concat, Decode, Combined, Rep, AllOrNone, Groups, Flat, LastMarker;
    ghost var all := Combined(f, keepLeft, keepRight, lb, rb);
    ghost var k := |result.Bits()|;
    assert k == |lb| || k == |rb|;
    CombinedRest(f, keepLeft, keepRight, lb, rb, k);
    Fill(result, keepLeft, left, lrun);
    Fill(result, keepRight, right, rrun);
    ghost var kept := (if keepLeft then lb[k..] else []) + (if keepRight then rb[k..] else []);
    Assoc(all[..k], if keepLeft then lb[k..] else [], if keepRight then rb[k..] else []);
    var size := if left.bm.numBits <= right.bm.numBits then right.bm.numBits else left.bm.numBits;
    result.AppendBits(false, size - result.numBits);
  }

  /** A bitwise operation on two bitmaps that walks over both run by run. */
  method BinaryEval(f: (bool, bool) -> bool, keepLeft: bool, keepRight: bool, l: EwahBitmap, r: EwahBitmap)
    returns (result: EwahBitmap)
    requires l.Valid() && r.Valid()
    ensures fresh(result) && result.Valid()
    ensures result.Bits() == Combined(f, keepLeft, keepRight, l.Bits(), r.Bits())
    ensures BitByBit(f, keepLeft, keepRight, l.Bits(), r.Bits(), result.Bits())
  {
    hide Encodes, Concat, Decode, Combined, Rep, AllOrNone, Run.Bits, BitByBit;
    ghost var lb, rb := l.Bits(), r.Bits();
    ghost var all := Combined(f, keepLeft, keepRight, lb, rb);
    result := new EwahBitmap();
    var left := new BitRange(l);
    var right := new BitRange(r);
    NoRun(lb);
    NoRun(rb);
    var lrun := TakeRun(left, EMPTY, lb, 0);
    var rrun := TakeRun(right, EMPTY, rb, 0);
    hide Walk;
    while lrun.size > 0 && rrun.size > 0
      invariant left.bm == l && right.bm == r && l.Bits() == lb && r.Bits() == rb && l.Valid() && r.Valid()
      invariant left.next <= |l.blocks| && right.next <= |r.blocks|
      invariant result.Valid() && |result.Bits()| <= |all| && result.Bits() == all[..|result.Bits()|]
      invariant Walk(left, lrun, lb, |result.Bits()|) && Walk(right, rrun, rb, |result.Bits()|)
      decreases |l.blocks| - left.next + |r.blocks| - right.next, lrun.size + rrun.size
    {
      lrun, rrun := Advance(f, keepLeft, keepRight, result, left, lrun, right, rrun, lb, rb);
    }
    FillRest(f, keepLeft, keepRight, result, left, lrun, right, rrun, lb, rb);
    CombinedBits(f, keepLeft, keepRight, lb, rb);
  }

  lemma NoRun(bits: seq<bool>)
    ensures EMPTY.Ok() && EMPTY.Bits() + bits == bits[0..]
  {
  }
}
