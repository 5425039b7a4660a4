/** 64-bit blocks of a compressed bitmap, least significant bit first, and the
    three fields that a block holds when it is read as a marker: the number of
    dirty words (bits 0..30), the number of clean words (bits 31..62) and the
    type of the clean words (bit 63). A block carries no tag: whether it is a
    marker or a literal depends on its position alone. */
module Words {
  const CLEAN_MAX: nat := 0xFFFF_FFFF
  const DIRTY_MAX: nat := 0x7FFF_FFFF

  type Word = w: seq<bool> | |w| == 64 witness seq(64, _ => false)

  function Rep(b: bool, n: nat): (r: seq<bool>)
  {
    seq(n, _ => b)
  }

  const NONE: Word := Rep(false, 64)
  const ALL: Word := Rep(true, 64)

  predicate AllOrNone(w: Word)
  {
    w == ALL || w == NONE
  }

  function Not(s: seq<bool>): (r: seq<bool>)
    ensures |r| == |s|
  {
    seq(|s|, i requires 0 <= i < |s| => !s[i])
  }

  // ----- Unsigned numbers in bit fields

  function Pow2(k: nat): (p: nat)
    ensures p >= 1
  {
    if k == 0 then 1 else 2 * Pow2(k - 1)
  }

  /** The number stored in the bits from lo up to hi. */
  function Read(w: Word, lo: nat, hi: nat): nat
    requires lo <= hi <= 64
    decreases |w|, hi - lo
  {
    if lo == hi then 0 else (if w[lo] then 1 else 0) + 2 * Read(w, lo + 1, hi)
  }

  /** Bit k of a number. */
  predicate BitOf(n: nat, k: nat)
  {
    if k == 0 then n % 2 == 1 else BitOf(n / 2, k - 1)
  }

  lemma {:induction false} ReadBound(w: Word, lo: nat, hi: nat)
    requires lo <= hi <= 64
    ensures Read(w, lo, hi) < Pow2(hi - lo)
    decreases |w|, hi - lo
  {
    if lo < hi {
      ReadBound(w, lo + 1, hi);
    }
  }

  lemma {:induction false} ReadWritten(w: Word, lo: nat, hi: nat, n: nat)
    requires lo <= hi <= 64 && n < Pow2(hi - lo)
    requires forall i :: lo <= i < hi ==> w[i] == BitOf(n, i - lo)
    ensures Read(w, lo, hi) == n
    decreases |w|, hi - lo
  {
    if lo < hi {
      forall i | lo + 1 <= i < hi
        ensures w[i] == BitOf(n / 2, i - (lo + 1))
      {
        assert w[i] == BitOf(n, i - lo);
      }
      ReadWritten(w, lo + 1, hi, n / 2);
      assert w[lo] == BitOf(n, 0);
    }
  }

  lemma ReadStep(w: Word, lo: nat, hi: nat, k: nat)
    requires lo < hi <= 64
    ensures BitOf(Read(w, lo, hi), 0) == w[lo]
    ensures k > 0 ==> BitOf(Read(w, lo, hi), k) == BitOf(Read(w, lo + 1, hi), k - 1)
  {
  }

  lemma {:induction false} BitOfRead(w: Word, lo: nat, hi: nat, i: nat)
    requires lo <= i < hi <= 64
    ensures BitOf(Read(w, lo, hi), i - lo) == w[i]
    decreases |w|, hi - lo
  {
    hide Read, BitOf;
    ReadStep(w, lo, hi, i - lo);
    if lo < i {
      BitOfRead(w, lo + 1, hi, i);
    }
  }

  lemma Times16(k: nat)
    ensures Pow2(k + 4) == 16 * Pow2(k)
  {
    assert Pow2(k + 2) == 4 * Pow2(k);
  }

  lemma CounterRange()
    ensures Pow2(31) == DIRTY_MAX + 1 && Pow2(32) == CLEAN_MAX + 1
  {
    Times16(0);
    Times16(4);
    Times16(8);
    Times16(12);
    Times16(16);
    Times16(20);
    Times16(24);
    Times16(28);
    assert Pow2(32) == 2 * Pow2(31);
  }

  // ----- Marker fields

  function Type(w: Word): bool
  {
    w[63]
  }

  function Clean(w: Word): nat
  {
    Read(w, 31, 63)
  }

  function Dirty(w: Word): nat
  {
    Read(w, 0, 31)
  }

  function SetType(w: Word, b: bool): Word
  {
    w[63 := b]
  }

  /** The setters of the counters do not cut off a number that is too large: its
      higher bits spill over into the fields above. */
  function SetClean(w: Word, n: nat): Word
  {
    seq(64, i requires 0 <= i < 64 => if i < 31 then w[i] else if i < 63 then BitOf(n, i - 31)
      else w[i] || BitOf(n, i - 31))
  }

  function SetDirty(w: Word, n: nat): Word
  {
    seq(64, i requires 0 <= i < 64 => if i < 31 then BitOf(n, i) else w[i] || BitOf(n, i))
  }

  /** The marker with the given fields. */
  function Marker(b: bool, clean: nat, dirty: nat): Word
  {
    seq(64, i requires 0 <= i < 64 =>
      if i < 31 then BitOf(dirty, i) else if i < 63 then BitOf(clean, i - 31) else b)
  }

  lemma FieldBounds(w: Word)
    ensures Clean(w) <= CLEAN_MAX && Dirty(w) <= DIRTY_MAX
  {
    ReadBound(w, 31, 63);
    ReadBound(w, 0, 31);
    CounterRange();
  }

  lemma MarkerFields(b: bool, clean: nat, dirty: nat)
    requires clean <= CLEAN_MAX && dirty <= DIRTY_MAX
    ensures var m := Marker(b, clean, dirty);
            Type(m) == b && Clean(m) == clean && Dirty(m) == dirty
  {
    CounterRange();
    var m := Marker(b, clean, dirty);
    ReadWritten(m, 0, 31, dirty);
    ReadWritten(m, 31, 63, clean);
  }

  /** A word is determined by its three marker fields. */
  lemma FieldsDetermine(w: Word)
    ensures w == Marker(Type(w), Clean(w), Dirty(w))
  {
    var m := Marker(Type(w), Clean(w), Dirty(w));
    forall i | 0 <= i < 64
      ensures w[i] == m[i]
    {
      if i < 31 {
        BitOfRead(w, 0, 31, i);
      } else if i < 63 {
        BitOfRead(w, 31, 63, i);
      }
    }
  }

  /** Each setter replaces one field and keeps the other two, as long as a counter
      does not exceed its maximum. */
  lemma Setters(w: Word, b: bool, n: nat)
    ensures SetType(w, b) == Marker(b, Clean(w), Dirty(w))
    ensures SetClean(w, n) == Marker(Type(w) || BitOf(n, 32), n, Dirty(w))
    ensures n <= CLEAN_MAX ==> SetClean(w, n) == Marker(Type(w), n, Dirty(w))
    ensures n <= DIRTY_MAX ==> SetDirty(w, n) == Marker(Type(w), Clean(w), n)
  {
    hide Read, BitOf, Pow2, Clean, Dirty;
    FieldsDetermine(w);
    CounterRange();
    if n <= CLEAN_MAX {
      NoBit(n, 32, 32);
    }
    if n <= DIRTY_MAX {
      forall i | 31 <= i < 64 ensures !BitOf(n, i) {
        NoBit(n, 31, i);
      }
    }
  }

  lemma {:induction false} NoBit(n: nat, k: nat, i: nat)
    requires n < Pow2(k) && k <= i
    ensures !BitOf(n, i)
    decreases i
  {
    if i > 0 {
      NoBit(n / 2, if k == 0 then 0 else k - 1, i - 1);
    }
  }

  /** The block of all zeros is the empty marker, and the number one is the
      marker of a single literal. */
  lemma SmallMarkers()
    ensures Type(NONE) == false && Clean(NONE) == 0 && Dirty(NONE) == 0
    ensures NONE == Marker(false, 0, 0)
    ensures NONE[0 := true] == Marker(false, 0, 1)
  {
    hide Type, Clean, Dirty, Marker, Read;
    ZeroAbove(NONE);
    ZeroAbove(NONE[0 := true]);
    FieldsDetermine(NONE);
    FieldsDetermine(NONE[0 := true]);
  }

  lemma ZeroAbove(w: Word)
    requires forall i :: 1 <= i < 64 ==> !w[i]
    ensures Type(w) == false && Clean(w) == 0 && Dirty(w) == if w[0] then 1 else 0
  {
    ZeroField(w, 31, 63);
    ZeroField(w, 1, 31);
  }

  lemma {:induction false} ZeroField(w: Word, lo: nat, hi: nat)
    requires lo <= hi <= 64
    requires forall i :: lo <= i < hi ==> !w[i]
    ensures Read(w, lo, hi) == 0
    decreases |w|, hi - lo
  {
    if lo < hi {
      ZeroField(w, lo + 1, hi);
    }
  }

  /** Setting up a run of one clean word, and counting one more word. */
  lemma SetterMarkers(m: Word, b: bool)
    ensures Dirty(m) == 0 ==> SetClean(SetType(m, b), 1) == Marker(b, 1, 0)
    ensures SetClean(SetType(NONE, b), 1) == Marker(b, 1, 0)
    ensures Clean(m) < CLEAN_MAX ==> SetClean(m, Clean(m) + 1) == Marker(Type(m), Clean(m) + 1, Dirty(m))
    ensures Dirty(m) < DIRTY_MAX ==> SetDirty(m, Dirty(m) + 1) == Marker(Type(m), Clean(m), Dirty(m) + 1)
  {
    hide Marker, SetClean, SetType, SetDirty, Clean, Dirty, Type;
    SmallMarkers();
    FieldBounds(m);
    Setters(m, b, Clean(m) + 1);
    Setters(m, b, Dirty(m) + 1);
    MarkerFields(b, Clean(m), Dirty(m));
    Setters(SetType(m, b), b, 1);
    Setters(NONE, b, 0);
    MarkerFields(b, 0, 0);
    Setters(SetType(NONE, b), b, 1);
  }

  /** The block with all clean bits set. */
  const CLEAN_MASK: Word := seq(64, i => 31 <= i < 63)

  lemma {:induction false} OnesField(w: Word, lo: nat, hi: nat)
    requires lo <= hi <= 64
    requires forall i :: lo <= i < hi ==> w[i]
    ensures Read(w, lo, hi) == Pow2(hi - lo) - 1
    decreases |w|, hi - lo
  {
    if lo < hi {
      OnesField(w, lo + 1, hi);
    }
  }

  lemma RunMarkers(b: bool, n: nat)
    requires n <= CLEAN_MAX
    ensures SetType(CLEAN_MASK, b) == Marker(b, CLEAN_MAX, 0)
    ensures SetType(SetClean(NONE, n), b) == Marker(b, n, 0)
  {
    hide Marker, Clean, Dirty, SetClean, SetType;
    assert Clean(CLEAN_MASK) == CLEAN_MAX && Dirty(CLEAN_MASK) == 0 by {
      MaskFields(CLEAN_MASK);
    }
    Setters(CLEAN_MASK, b, 0);
    SmallMarkers();
    Setters(NONE, b, n);
    MarkerFields(Type(NONE), n, 0);
    Setters(SetClean(NONE, n), b, 0);
  }

  lemma MaskFields(w: Word)
    requires forall i :: 0 <= i < 63 ==> w[i] == (31 <= i)
    ensures Clean(w) == CLEAN_MAX && Dirty(w) == 0
  {
    OnesField(w, 31, 63);
    ZeroField(w, 0, 31);
    CounterRange();
  }

  // ----- Literals

  /** A partial word as a block, the unused bits zero. */
  function Pad(w: seq<bool>): (r: Word)
    requires |w| <= 64
  {
    w + Rep(false, 64 - |w|)
  }

  function Or(a: Word, b: Word): (r: Word)
  {
    seq(64, i requires 0 <= i < 64 => a[i] || b[i])
  }

  function And(a: Word, b: Word): (r: Word)
  {
    seq(64, i requires 0 <= i < 64 => a[i] && b[i])
  }

  function Shl(w: Word, k: nat): (r: Word)
  {
    seq(64, i requires 0 <= i < 64 => k <= i && w[i - k])
  }

  function Shr(w: Word, k: nat): (r: Word)
  {
    seq(64, i requires 0 <= i < 64 => i + k < 64 && w[i + k])
  }

  /** The word whose k least significant bits are set. */
  function LsbMask(k: nat): (r: Word)
  {
    seq(64, i => i < k)
  }

  lemma MaskPads(k: nat)
    requires k <= 64
    ensures LsbMask(k) == Pad(Rep(true, k))
    ensures NONE == Pad(Rep(false, k))
  {
  }

  lemma AndMask(w: Word, from: nat, k: nat)
    requires from + k <= 64
    ensures And(Shr(w, from), LsbMask(k)) == Pad(w[from..from + k])
    ensures from == 0 ==> Shr(w, from) == w
  {
  }

  /** Bits shifted behind a partial word extend it. */
  lemma OrBehind(t: seq<bool>, v: seq<bool>)
    requires |t| + |v| <= 64
    ensures Or(Pad(t), Shl(Pad(v), |t|)) == Pad(t + v)
  {
  }

  /** A complement, cut back to the used bits. */
  lemma NotPad(t: seq<bool>)
    requires |t| <= 64
    ensures And(Not(Pad(t)), LsbMask(|t|)) == Pad(Not(t))
    ensures |t| == 64 ==> Not(Pad(t)) == Pad(Not(t))
  {
  }
}
