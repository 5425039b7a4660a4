/** Iterating over the positions of the one bits of a bitmap. */
module OneRanges {
  import opened Words
  import opened Ewah
  import opened EwahBitmaps
  import opened BitRanges

  /** The position that stands for none. */
  const NPOS: int := -1

  /** The first one bit of a word at or behind a position. */
  function FirstOne(w: Word, from: nat): (p: int)
    requires from <= 64
    ensures p == NPOS || (from <= p < 64 && w[p])
    ensures forall j :: from <= j < (if p == NPOS then 64 else p) ==> !w[j]
    decreases 64 - from
  {
    if from == 64 then NPOS
    else if w[from] then from
    else FirstOne(w, from + 1)
  }

  function FindFirst(r: Run): int
  {
    if r.IsRun() then (if r.data == ALL then 0 else NPOS) else FirstOne(r.data, 0)
  }

  function FindNext(r: Run, i: nat): int
    requires i < r.size
  {
    if i == r.size - 1 then NPOS
    else if r.IsRun() then (if r.data == ALL then i + 1 else NPOS)
    else FirstOne(r.data, i + 1)
  }

  /** The one bits of a run from a position on start at p. */
  predicate StartAt(bits: seq<bool>, from: nat, p: int)
  {
    && (p == NPOS || (from <= p < |bits| && bits[p]))
    && (forall j :: from <= j < (if p == NPOS then |bits| else p) ==> j < |bits| && !bits[j])
  }

  lemma RunBit(r: Run, j: nat)
    requires r.Ok() && j < r.size
    ensures r.Bits()[j] == r.data[if r.IsRun() then 0 else j]
  {
  }

  lemma Finds(r: Run)
    requires r.Ok() && r.size > 0
    ensures StartAt(r.Bits(), 0, FindFirst(r))
    ensures forall i :: 0 <= i < r.size ==> StartAt(r.Bits(), i + 1, FindNext(r, i))
  {
    forall j | 0 <= j < r.size
      ensures r.Bits()[j] == r.data[if r.IsRun() then 0 else j]
    {
      RunBit(r, j);
    }
  }

  lemma Behind(bits: seq<bool>, n: nat, a: seq<bool>, b: seq<bool>)
    requires n <= |bits| && bits[n..] == a + b
    ensures n + |a| <= |bits| && bits[n + |a|..] == b
    ensures forall j :: 0 <= j < |a| ==> a[j] == bits[n + j]
  {
    assert |bits[n..]| == |a| + |b|;
    assert bits[n..][|a|..] == bits[n + |a|..];
    forall j | 0 <= j < |a| ensures a[j] == bits[n + j] {
      assert bits[n..][j] == a[j];
    }
  }

  class OneRange {
    const rng: BitRange
    var i: int
    var n: nat

    /** The run that is read and all later ones are the bits from n on. */
    ghost predicate Follows()
      reads this, rng, rng.bm
    {
      rng.Valid() && n <= |rng.bm.Bits()| && rng.Remaining() == rng.bm.Bits()[n..]
    }

    ghost predicate Valid()
      reads this, rng, rng.bm
    {
      && Follows()
      && (if rng.Done() then i == NPOS else 0 <= i < rng.run.size)
    }

    predicate Done()
      reads this, rng, rng.bm
    {
      rng.Done() && i == NPOS
    }

    function Get(): int
      reads this
    {
      n + i
    }

    /** The bits from a position on are zeros up to the current one. */
    ghost predicate NoneFrom(from: nat)
      reads this, rng, rng.bm
    {
      forall j :: from <= j < |rng.bm.Bits()| && (Done() || j < Get()) ==> !rng.bm.Bits()[j]
    }

    constructor (bm: EwahBitmap)
      requires bm.Valid()
      ensures fresh(rng) && rng.bm == bm && Valid()
      ensures !Done() ==> 0 <= Get() < |bm.Bits()| && bm.Bits()[Get()]
      ensures NoneFrom(0)
    {
      hide Encodes, EwahBitmap.Bits, BitRange.Remaining, Run.Bits, Run.Ok, AllOrNone;
      var r := new BitRange(bm);
      rng := r;
      i := if r.Done() then NPOS else 0;
      n := 0;
      new;
      DoneBits();
      if !Done() {
        CurrentBit();
        if !rng.run.data[0] {
          Next();
        }
      }
    }

    lemma CurrentBit()
      requires Follows() && !rng.Done()
      ensures n + rng.run.size <= |rng.bm.Bits()|
      ensures forall j :: 0 <= j < rng.run.size ==> rng.run.Bits()[j] == rng.bm.Bits()[n + j]
      ensures rng.run.Bits()[0] == rng.run.data[0]
    {
      hide Encodes, Concat, Decode, Rep, Run.Bits, AllOrNone;
      RunBit(rng.run, 0);
      var b := rng.run.Bits();
      assert forall j :: 0 <= j < |b| ==> rng.Remaining()[j] == b[j];
      assert forall j :: 0 <= j < |b| ==> rng.Remaining()[j] == rng.bm.Bits()[n..][j];
    }

    lemma DoneBits()
      requires Follows()
      ensures rng.Done() ==> n == |rng.bm.Bits()|
    {
      hide Encodes, Concat, Decode, Run.Bits;
    }

    /** Reads the next run and looks for its first one bit. */
    method NextRun()
      requires Follows() && !rng.Done()
      modifies this, rng
      ensures Follows() && rng.next > old(rng.next) && n == old(n + rng.run.size)
      ensures rng.Done() ==> i == NPOS && n == |rng.bm.Bits()|
      ensures !rng.Done() ==> n + rng.run.size <= |rng.bm.Bits()| && InRun(0)
    {
      hide Encodes, EwahBitmap.Bits, BitRange.Remaining, Run.Bits, Run.Ok, AllOrNone, FindFirst;
      ghost var bits, from, read := rng.bm.Bits(), n, rng.run.Bits();
      n := n + rng.run.size;
      rng.Next();
      Behind(bits, from, read, rng.Remaining());
      DoneBits();
      i := NPOS;
      if !rng.Done() {
        FirstInRun();
      }
    }

    method FirstInRun()
      requires Follows() && !rng.Done()
      modifies this`i
      ensures Follows() && n + rng.run.size <= |rng.bm.Bits()| && InRun(0)
    {
      hide Encodes, Concat, Decode, Rep, Run.Bits, AllOrNone, FindFirst, FindNext, Run.Ok;
      CurrentBit();
      Finds(rng.run);
      i := FindFirst(rng.run);
    }

    /** The one bits of the current run from a position on start at i. */
    ghost predicate InRun(from: nat)
      requires rng.bm.Valid() && n + rng.run.size <= |rng.bm.Bits()|
      reads this, rng, rng.bm
    {
      && (i == NPOS || (from <= i < rng.run.size && rng.bm.Bits()[n + i]))
      && (forall j :: n + from <= j < n + (if i == NPOS then rng.run.size else i) ==> !rng.bm.Bits()[j])
    }

    /** Looks for the next one bit in the current run. */
    method FindInRun()
      requires Valid() && !Done()
      modifies this`i
      ensures Follows() && n + rng.run.size <= |rng.bm.Bits()| && InRun(old(i) + 1)
    {
      hide Encodes, Concat, Decode, Rep, Run.Bits, AllOrNone, FindFirst, FindNext, Run.Ok;
      CurrentBit();
      Finds(rng.run);
      i := FindNext(rng.run, i);
    }

    /** Moves on to the next one bit. */
    method Next()
      requires Valid() && !Done()
      modifies this, rng
      ensures Valid()
      ensures !Done() ==> old(Get()) < Get() < |rng.bm.Bits()| && rng.bm.Bits()[Get()]
      ensures NoneFrom(old(Get()) + 1)
    {
      hide Encodes, EwahBitmap.Bits, BitRange.Remaining, Run.Bits, Run.Ok;
      ghost var start, bits := Get() + 1, rng.bm.Bits();
      FindInRun();
      while i == NPOS && !rng.Done()
        invariant Follows() && start <= n + rng.run.size
        invariant rng.Done() ==> i == NPOS && n == |bits|
        invariant !rng.Done() ==>
          n + rng.run.size <= |bits| && (i == NPOS || (0 <= i < rng.run.size && n + i >= start && bits[n + i]))
        invariant forall j :: start <= j < (if rng.Done() then n else if i == NPOS then n + rng.run.size else n + i) ==>
            !bits[j]
        decreases |rng.bm.blocks| - rng.next
      {
        NextRun();
      }
    }
  }
}
