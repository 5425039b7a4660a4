/** The bitmap itself: an object whose blocks, last marker index and bit count
    are updated in place. */
module EwahBitmaps {
  import opened Words
  import opened Ewah

  lemma LastBlock<T>(a: seq<T>, x: T, y: T)
    ensures (a + [x])[|a|] == x
    ensures (a + [x])[|a| := y] == a + [y]
    ensures (a + [x])[..|a|] == a
  {
  }

  lemma InnerBlock<T>(a: seq<T>, m: T, b: seq<T>, y: T)
    ensures (a + [m] + b)[|a|] == m
    ensures (a + [m] + b)[|a| := y] == a + [y] + b
  {
  }

  /** Blocks and last marker once a full last block that is not clean has been
      counted by a marker. */
  function Bumped(blocks: seq<Word>, lastMarker: nat): (r: (seq<Word>, nat))
    requires lastMarker < |blocks| - 1
  {
    var k := |blocks| - 1;
    var m := blocks[lastMarker];
    if Dirty(m) == DIRTY_MAX then
      (blocks[k := NONE[0 := true]] + [blocks[k]], k)
    else
      (blocks[lastMarker := SetDirty(m, Dirty(m) + 1)], lastMarker)
  }

  /** Blocks and last marker as integrating the last block leaves them. */
  function Integrated(blocks: seq<Word>, lastMarker: nat): (r: (seq<Word>, nat))
    requires lastMarker < |blocks| - 1
  {
    var k := |blocks| - 1;
    var last, m := blocks[k], blocks[lastMarker];
    if !AllOrNone(last) then
      Bumped(blocks, lastMarker)
    else if k - lastMarker == 1 && Clean(m) == 0 then
      (blocks[lastMarker := SetClean(SetType(m, last[0]), 1)][..k], lastMarker)
    else if k - lastMarker == 1 && last[0] == Type(m) && Clean(m) != CLEAN_MAX then
      (blocks[lastMarker := SetClean(m, Clean(m) + 1)][..k], lastMarker)
    else
      (blocks[k := SetClean(SetType(NONE, last[0]), 1)], k)
  }

  lemma IntegratedChain(c: Chain, w: Word)
    requires Linked(c)
    ensures var r := PushWord(c, w);
            Integrated(Flat(c) + [w], LastMarker(c)) == (Flat(r), LastMarker(r))
  {
    hide Marker, SetClean, SetType, SetDirty, Clean, Dirty, Type, AllOrNone, Rep;
    var m := c.marker;
    var a := Flat(c.init);
    SmallMarkers();
    FieldBounds(m);
    SetterMarkers(m, w[0]);
    var r := PushWord(c, w);
    var ls := ToSeq(c.literals);
    var bs := Flat(c) + [w];
    var k := |bs| - 1;
    assert bs == a + [m] + (ls + [w]);
    InnerBlock(a, m, ls + [w], r.marker);
    LastBlock(Flat(c), w, r.marker);
    if AllOrNone(w) {
      if ls == [] && (Clean(m) == 0 || (w[0] == Type(m) && Clean(m) != CLEAN_MAX)) {
        assert a + [r.marker] + (ls + [w]) == (a + [r.marker]) + [w];
        assert bs[|a| := r.marker][..k] == a + [r.marker] == Flat(r);
      } else {
        assert Flat(c) + [r.marker] == Flat(r);
      }
    } else if Dirty(m) == DIRTY_MAX {
      assert bs[k := r.marker] + [bs[k]] == Flat(c) + [r.marker] + [w] == Flat(r);
    } else {
      assert a + [r.marker] + (ls + [w]) == Flat(r);
    }
  }

  /** What growing the run of a marker writes there. */
  lemma GrownMarker(m: Word, b: bool, n: nat)
    requires n <= CLEAN_MAX
    ensures SetType(SetClean(m, n), b) == Marker(b, n, Dirty(m))
    ensures Dirty(Marker(b, n, Dirty(m))) == Dirty(m)
    ensures Type(m) == b && Clean(m) == n ==> Marker(b, n, Dirty(m)) == m
  {
    hide Marker, SetClean, SetType, Clean, Dirty, Type;
    FieldBounds(m);
    FieldsDetermine(m);
    Setters(m, b, n);
    MarkerFields(Type(m), n, Dirty(m));
    Setters(SetClean(m, n), b, 0);
    MarkerFields(b, n, Dirty(m));
  }

  /** Whether the last marker is reused for a run, and what is then written
      there. */
  lemma RunReuse(c: Chain, b: bool, k: nat)
    requires Linked(c)
    ensures Clean(c.marker) <= CLEAN_MAX
    ensures var m := c.marker;
            var reuse := (Size(c.init) == Size(c) - 1 && Type(m) == b) || (Size(c.init) == 0 && m == NONE);
            var extra := Min(CLEAN_MAX - Clean(m), k);
            var d := c.(marker := SetType(SetClean(m, Clean(m) + extra), b));
            if reuse then c.literals == Nil && Dirty(d.marker) == 0 && PushRun(c, b, k) == NewMarkers(d, b, k - extra)
            else PushRun(c, b, k) == NewMarkers(c, b, k)
  {
    hide Marker, SetClean, SetType, Clean, Dirty, Type, NONE, NewMarkers;
    var m := c.marker;
    FieldBounds(m);
    SmallMarkers();
    GrownMarker(m, b, Clean(m) + Min(CLEAN_MAX - Clean(m), k));
  }

  /** Replacing the marker of the last group in place. */
  lemma SetLastMarker(c: Chain, m: Word)
    requires c.More?
    ensures Flat(c)[LastMarker(c)] == c.marker
    ensures Flat(c)[LastMarker(c) := m] == Flat(c.(marker := m))
  {
    InnerBlock(Flat(c.init), c.marker, ToSeq(c.literals), m);
  }

  /** The three stored fields for full words and the bits of the last block. */
  ghost predicate Encodes(blocks: seq<Word>, lastMarker: nat, numBits: nat, ws: WordList, tail: seq<bool>)
  {
    && |tail| <= 64
    && numBits == 64 * Count(ws) + |tail|
    && if tail == [] then ws == Nil && blocks == [] && lastMarker == 0
       else blocks == Flat(Groups(ws)) + [Pad(tail)] && lastMarker == LastMarker(Groups(ws))
  }

  /** The stored blocks and the bit count alone give the bits back. */
  lemma DecodesToBits(blocks: seq<Word>, lastMarker: nat, numBits: nat, ws: WordList, tail: seq<bool>)
    requires Encodes(blocks, lastMarker, numBits, ws, tail)
    ensures Decode(blocks, numBits, 0, 0) == Concat(ws) + tail
    ensures |Decode(blocks, numBits, 0, 0)| == numBits
  {
    hide PushWord, Flat, Rep, Clean, Dirty, Type, Groups;
    if tail != [] {
      var c := Groups(ws);
      GroupsLinked(ws);
      GroupsBits(ws);
      HoldsFlat(c, [Pad(tail)]);
      DecodeChain(c, blocks, numBits);
      LastPartial(ws, tail);
      assert Pad(tail)[..|tail|] == tail;
    }
  }

  /** There is one encoding for each bit sequence, last marker included. */
  lemma BitsDetermineState(blocks: seq<Word>, lastMarker: nat, numBits: nat, ws: WordList, tail: seq<bool>,
                           blocks': seq<Word>, lastMarker': nat, numBits': nat, ws': WordList, tail': seq<bool>)
    requires Encodes(blocks, lastMarker, numBits, ws, tail)
    requires Encodes(blocks', lastMarker', numBits', ws', tail')
    requires Concat(ws) + tail == Concat(ws') + tail'
    ensures blocks == blocks' && lastMarker == lastMarker' && numBits == numBits'
  {
    hide Groups, Flat, Pad;
    if tail == [] || tail' == [] {
      assert |Concat(ws) + tail| == |Concat(ws') + tail'|;
    } else {
      SplitUnique(ws, tail, ws', tail');
    }
  }

  /** The marker chain of an encoding: hopping from the first block over each
      marker and the literals it counts ends exactly at the last block, the last
      hop starting from the last marker; the last block is not counted and its
      unused bits are zero. */
  ghost predicate HopsTo(blocks: seq<Word>, from: nat, lastMarker: nat)
    requires from < |blocks|
    decreases |blocks| - from
  {
    var next := from + Dirty(blocks[from]) + 1;
    if from == lastMarker then next == |blocks| - 1
    else next < |blocks| - 1 && HopsTo(blocks, next, lastMarker)
  }

  lemma {:induction false} HopsOver(c: Chain, blocks: seq<Word>, lastMarker: nat)
    requires c.More? && Counts(c) && Size(c) < |blocks| && HoldsChain(blocks, c)
    requires (lastMarker == Size(c.init) && Size(c) == |blocks| - 1)
          || (lastMarker > Size(c.init) && Size(c) < |blocks| - 1 && HopsTo(blocks, Size(c), lastMarker))
    ensures HopsTo(blocks, 0, lastMarker)
  {
    hide Dirty, HoldsWords;
    if c.init.More? {
      HopsOver(c.init, blocks, lastMarker);
    }
  }

  lemma MarkerChain(blocks: seq<Word>, lastMarker: nat, numBits: nat, ws: WordList, tail: seq<bool>)
    requires Encodes(blocks, lastMarker, numBits, ws, tail) && tail != []
    ensures HopsTo(blocks, 0, lastMarker)
    ensures var last := blocks[|blocks| - 1]; last == Pad(last[..LastWidth(numBits)])
  {
    hide PushWord, Flat, Clean, Dirty, Type, Groups, HopsTo;
    GroupsLinked(ws);
    HoldsFlat(Groups(ws), [Pad(tail)]);
    HopsOver(Groups(ws), blocks, lastMarker);
    LastPartial(ws, tail);
    assert Pad(tail)[..|tail|] == tail;
  }

  lemma FlippedChain(ws: WordList, tail: seq<bool>, blocks: seq<Word>)
    requires |tail| <= 64 && blocks == Flat(Groups(ws)) + [Pad(tail)]
    ensures FlipFrom(blocks, 0, 0, |blocks| - 1) == Flat(Groups(NotWords(ws)))
    ensures LastMarker(Groups(NotWords(ws))) == LastMarker(Groups(ws))
  {
    hide PushWord, Flat, Clean, Dirty, Type, Not, FlipMarker, Groups;
    var c := Groups(ws);
    GroupsLinked(ws);
    GroupsFlip(ws);
    HoldsFlat(c, [Pad(tail)]);
    FlipFromChain(c, blocks, |blocks| - 1);
  }

  // ----- The object

  class EwahBitmap {
    var blocks: seq<Word>
    var lastMarker: nat
    var numBits: nat

    // The bits, split into full words and the one to 64 bits of the last block.
    ghost var words: WordList
    ghost var tail: seq<bool>

    ghost function Bits(): (bits: seq<bool>)
      reads this
    {
      Concat(words) + tail
    }

    /** The fields are the canonical encoding of the bits. */
    ghost predicate Valid()
      reads this
    {
      Encodes(blocks, lastMarker, numBits, words, tail)
    }

    /** There is no open last block: the marker chain covers every block. */
    ghost predicate Sealed()
      reads this
    {
      && tail == []
      && blocks == Flat(Groups(words))
      && lastMarker == LastMarker(Groups(words))
      && numBits == 64 * Count(words)
    }

    constructor ()
      ensures Valid() && Bits() == []
    {
      blocks, lastMarker, numBits := [], 0, 0;
      words, tail := Nil, [];
    }

    constructor Copy(other: EwahBitmap)
      requires other.Valid()
      ensures Valid() && Bits() == other.Bits()
    {
      blocks, lastMarker, numBits := other.blocks, other.lastMarker, other.numBits;
      words, tail := other.words, other.tail;
    }

    method BumpDirtyCount()
      requires lastMarker < |blocks| - 1
      modifies this`blocks, this`lastMarker
      ensures (blocks, lastMarker) == Bumped(old(blocks), old(lastMarker))
    {
      var m := blocks[lastMarker];
      var numDirty := Dirty(m);
      if numDirty == DIRTY_MAX {
        var dirtyBlock := blocks[|blocks| - 1];
        blocks := blocks[|blocks| - 1 := NONE[0 := true]];
        lastMarker := |blocks| - 1;
        blocks := blocks + [dirtyBlock];
      } else {
        blocks := blocks[lastMarker := SetDirty(m, numDirty + 1)];
      }
    }

    method IntegrateBlocks()
      requires lastMarker < |blocks| - 1
      modifies this`blocks, this`lastMarker
      ensures (blocks, lastMarker) == Integrated(old(blocks), old(lastMarker))
    {
      hide SetClean, SetType, Clean, Type, AllOrNone, Bumped, NONE;
      var k := |blocks| - 1;
      var last, m := blocks[k], blocks[lastMarker];
      if AllOrNone(last) {
        var clean := Clean(m);
        if k - lastMarker == 1 && clean == 0 {
          blocks := blocks[lastMarker := SetClean(SetType(m, last[0]), 1)];
          blocks := blocks[..k];
        } else if k - lastMarker == 1 && last[0] == Type(m) && clean != CLEAN_MAX {
          blocks := blocks[lastMarker := SetClean(m, clean + 1)];
          blocks := blocks[..k];
        } else {
          blocks := blocks[k := SetClean(SetType(NONE, last[0]), 1)];
          lastMarker := |blocks| - 1;
        }
      } else {
        BumpDirtyCount();
      }
    }

    /** Takes the full last block into the marker chain. */
    method IntegrateLastBlock()
      requires Valid() && |tail| == 64
      modifies this`blocks, this`lastMarker, this`words, this`tail
      ensures Sealed() && Bits() == old(Bits()) && words == Snoc(old(words), old(tail))
    {
      hide Integrated, Flat, Pad, Concat, PushWord;
      PadFalse(tail, 0);
      GroupsLinked(words);
      IntegratedChain(Groups(words), tail);
      SnocParts(words, tail);
      IntegrateBlocks();
      words, tail := Snoc(words, tail), [];
    }

    /** A last block follows the chain, possibly without bits yet. */
    ghost predicate HasLast()
      reads this
    {
      && |tail| <= 64
      && numBits == 64 * Count(words) + |tail|
      && blocks == Flat(Groups(words)) + [Pad(tail)]
      && lastMarker == LastMarker(Groups(words))
    }

    /** Sets bits behind the used ones of the last block. */
    method OrLast(w: Word, n: nat, ghost v: seq<bool>)
      requires HasLast() && |v| == n && |tail| < 64 && |tail| + n <= 64 && w == Pad(v)
      modifies this`blocks, this`numBits, this`tail
      ensures HasLast() && tail == old(tail) + v
      ensures Bits() == old(Bits()) + v
    {
      hide Flat, Groups, LastMarker, Pad, Or, Shl, Concat;
      var partial := numBits % 64;
      LastPartial(words, tail);
      SetTail(Flat(Groups(words)), tail, v);
      blocks := blocks[|blocks| - 1 := Or(blocks[|blocks| - 1], Shl(w, partial))];
      numBits := numBits + n;
      Assoc(Concat(words), tail, v);
      tail := tail + v;
    }

    method AppendBit(bit: bool)
      requires Valid()
      modifies this
      ensures Valid() && Bits() == old(Bits()) + [bit]
    {
      hide Flat, Groups, LastMarker, Pad, Rep, LsbMask, Concat;
      var partial := numBits % 64;
      LastPartial(words, tail);
      PadFalse([], 0);
      if blocks == [] {
        blocks := [NONE, NONE];
        FlatFirst();
      } else if partial == 0 {
        IntegrateLastBlock();
        blocks := blocks + [NONE];
      }
      RepLength(bit, 1);
      if bit {
        MaskPads(1);
        OrLast(LsbMask(1), 1, [true]);
      } else {
        PadFalse(tail, 1);
        Assoc(Concat(words), tail, [false]);
        numBits := numBits + 1;
        tail := tail + [false];
      }
    }

    /** Appends a run at a block boundary: whole clean blocks go into markers,
        the last one to 64 bits into a new last block. */
    method AppendRun(bit: bool, n: nat)
      requires Sealed() && n > 0
      modifies this
      ensures Valid() && Bits() == old(Bits()) + Rep(bit, n)
    {
      hide Flat, Groups, LastMarker, Pad, Rep, LsbMask, Concat, RepeatWord, Word0;
      if n <= 64 {
        MaskPads(n);
        blocks := blocks + [if bit then LsbMask(n) else NONE];
        numBits := numBits + n;
        tail := Rep(bit, n);
        RepLength(bit, n);
        return;
      }
      var cleanBlocks, remaining := n / 64, n % 64;
      if remaining == 0 {
        assert cleanBlocks > 0;
        cleanBlocks := cleanBlocks - 1;
        remaining := 64;
      }
      assert cleanBlocks > 0 && n == 64 * cleanBlocks + remaining;
      numBits := numBits + n;
      ghost var before := words;
      ConcatRun(words, bit, cleanBlocks);
      AppendCleanBlocks(bit, cleanBlocks);
      MaskPads(remaining);
      blocks := blocks + [if bit then LsbMask(remaining) else NONE];
      tail := Rep(bit, remaining);
      RepLength(bit, remaining);
      RepSum(bit, 64 * cleanBlocks, remaining);
      Assoc(Concat(before), Rep(bit, 64 * cleanBlocks), Rep(bit, remaining));
    }

    method AppendBits(bit: bool, n: nat)
      requires Valid()
      modifies this
      ensures Valid() && Bits() == old(Bits()) + Rep(bit, n)
    {
      hide Flat, Groups, LastMarker, Pad, Or, Shl, Rep, LsbMask, Concat;
      RepLength(bit, n);
      if n == 0 {
        return;
      }
      var rest := n;
      if blocks == [] {
        blocks := [NONE];
        FlatFirst();
      } else {
        var partial := numBits % 64;
        LastPartial(words, tail);
        if partial > 0 {
          var fill := Min(rest, 64 - partial);
          RepLength(bit, fill);
          if bit {
            MaskPads(fill);
            OrLast(LsbMask(fill), fill, Rep(true, fill));
          } else {
            PadFalse(tail, fill);
            Assoc(Concat(words), tail, Rep(bit, fill));
            numBits := numBits + fill;
            tail := tail + Rep(bit, fill);
          }
          rest := rest - fill;
          RepSum(bit, fill, rest);
          Assoc(old(Bits()), Rep(bit, fill), Rep(bit, rest));
          if rest == 0 {
            RepLength(bit, 0);
            return;
          }
        }
        IntegrateLastBlock();
      }
      AppendRun(bit, rest);
    }

    method AppendBlock(value: Word, n: nat)
      requires Valid() && 1 <= n <= 64
      modifies this
      ensures Valid() && Bits() == old(Bits()) + value[..n]
    {
      hide Flat, Groups, LastMarker, Pad, Or, And, Shl, Shr, LsbMask, Concat, NONE;
      AndMask(value, 0, n);
      if blocks == [] {
        blocks := [NONE];
        FlatFirst();
      } else if numBits % 64 == 0 {
        LastPartial(words, tail);
        IntegrateLastBlock();
      }
      var partial := numBits % 64;
      LastPartial(words, tail);
      if partial == 0 {
        PushLast(And(value, LsbMask(n)), n, value[..n]);
        return;
      }
      var unused := 64 - partial;
      if n <= unused {
        OrLast(And(value, LsbMask(n)), n, value[..n]);
      } else {
        AppendAcross(value, unused, n);
      }
    }

    /** Puts a last block behind a sealed chain. */
    method PushLast(w: Word, n: nat, ghost v: seq<bool>)
      requires Sealed() && 0 < |v| == n <= 64 && w == Pad(v)
      modifies this`blocks, this`numBits, this`tail
      ensures Valid() && Bits() == old(Bits()) + v
    {
      hide Flat, Groups, LastMarker, Pad, Concat;
      blocks := blocks + [w];
      numBits := numBits + n;
      tail := v;
      Assoc(Concat(words), [], v);
    }

    /** Fills up the last block and puts the remaining bits in a new one. */
    method AppendAcross(value: Word, unused: nat, n: nat)
      requires HasLast() && 0 < |tail| && |tail| + unused == 64 && 0 < unused < n <= 64
      modifies this
      ensures Valid() && Bits() == old(Bits()) + value[..n]
    {
      hide Flat, Groups, LastMarker, Pad, Or, And, Shl, Shr, LsbMask, Concat;
      AndMask(value, 0, unused);
      OrLast(And(value, LsbMask(unused)), unused, value[..unused]);
      IntegrateLastBlock();
      var remaining := n - unused;
      AndMask(value, unused, remaining);
      Assoc(old(Bits()), value[..unused], value[unused..n]);
      PushLast(And(Shr(value, unused), LsbMask(remaining)), remaining, value[unused..n]);
    }

    /** Walks over all blocks but the last one, hopping from marker to marker. */
    method FlipBlocks()
      requires |blocks| > 0
      modifies this`blocks
      ensures blocks == FlipFrom(old(blocks), 0, 0, |old(blocks)| - 1) + [old(blocks)[|old(blocks)| - 1]]
    {
      hide SetType, Type, Clean, Dirty, Not, FlipMarker, FlipFrom;
      ghost var before := blocks;
      ghost var done := [];
      var end := |blocks| - 1;
      var i, nextMarker := 0, 0;
      while i < end
        invariant i <= end == |before| - 1 && i <= nextMarker && i == |done| && |blocks| == |before|
        invariant forall j :: 0 <= j < i ==> blocks[j] == done[j]
        invariant forall j :: i <= j < |blocks| ==> blocks[j] == before[j]
        invariant done + FlipFrom(before, i, nextMarker - i, end) == FlipFrom(before, 0, 0, end)
      {
        FlipStep(before, i, nextMarker - i, end);
        nextMarker := FlipBlock(i, nextMarker);
        ghost var w := blocks[i];
        Assoc(done, [w], FlipFrom(before, i + 1, nextMarker - (i + 1), end));
        done := done + [w];
        i := i + 1;
      }
    }

    /** Flips one block, a marker or a literal; returns where the next marker is. */
    method FlipBlock(i: nat, nextMarker: nat) returns (next: nat)
      requires i < |blocks| && i <= nextMarker
      modifies this`blocks
      ensures blocks == old(blocks)[i := if i == nextMarker then FlipMarker(old(blocks)[i]) else Not(old(blocks)[i])]
      ensures next == if i == nextMarker then nextMarker + Dirty(old(blocks)[i]) + 1 else nextMarker
    {
      hide SetType, Type, Clean, Dirty, Not, FlipMarker;
      var block := blocks[i];
      next := nextMarker;
      if i == nextMarker {
        FlipMarkerFields(block);
        if Clean(block) > 0 {
          blocks := blocks[i := SetType(block, !Type(block))];
        }
        next := next + Dirty(blocks[i]) + 1;
      } else {
        blocks := blocks[i := Not(block)];
      }
    }

    /** Complements every bit in place. */
    method Flip()
      requires Valid()
      modifies this
      ensures Valid() && Bits() == Not(old(Bits()))
    {
      hide Flat, Groups, LastMarker, Pad, And, Not, LsbMask, Concat, FlipFrom;
      if blocks == [] {
        return;
      }
      FlippedChain(words, tail, blocks);
      FlipBlocks();
      var end := |blocks| - 1;
      LastBlock(Flat(Groups(NotWords(words))), Pad(tail), Not(Pad(tail)));
      blocks := blocks[end := Not(blocks[end])];
      var partial := numBits % 64;
      LastPartial(words, tail);
      NotPad(tail);
      if partial > 0 {
        LastBlock(Flat(Groups(NotWords(words))), Not(Pad(tail)), Pad(Not(tail)));
        blocks := blocks[end := And(blocks[end], LsbMask(partial))];
      }
      NotAppend(Concat(words), tail);
      ConcatNot(words);
      words, tail := NotWords(words), Not(tail);
    }

    /** Compares blocks and bit count only. */
    method Equals(other: EwahBitmap) returns (r: bool)
      requires Valid() && other.Valid()
      ensures r <==> Bits() == other.Bits()
      ensures r ==> lastMarker == other.lastMarker
    {
      r := blocks == other.blocks && numBits == other.numBits;
      if r {
        DecodesToBits(blocks, lastMarker, numBits, words, tail);
        DecodesToBits(other.blocks, other.lastMarker, other.numBits, other.words, other.tail);
      }
      if Bits() == other.Bits() {
        BitsDetermineState(blocks, lastMarker, numBits, words, tail,
                           other.blocks, other.lastMarker, other.numBits, other.words, other.tail);
      }
    }

    /** Puts k clean words of one type behind a sealed chain. */
    method AppendCleanBlocks(bit: bool, k: nat)
      requires k > 0 && tail == []
      requires blocks == Flat(Groups(words)) && lastMarker == LastMarker(Groups(words))
      modifies this`blocks, this`lastMarker, this`words
      ensures words == RepeatWord(old(words), Word0(bit), k)
      ensures blocks == Flat(Groups(words)) && lastMarker == LastMarker(Groups(words))
    {
      hide Flat, Groups, Marker, SetClean, SetType, SetDirty, Clean, Dirty, Type, NONE, CLEAN_MASK, NewMarkers, PushRun,
        Copies;
      ghost var c := Groups(words);
      GroupsLinked(words);
      GroupsRun(words, bit, k);
      RunReuse(c, bit, k);
      var m := blocks[lastMarker];
      var rest := k;
      SetLastMarker(c, m);
      ghost var d := c;
      if (lastMarker == |blocks| - 1 && Type(m) == bit) || (lastMarker == 0 && m == NONE) {
        var clean := Clean(m);
        var available := CLEAN_MAX - clean;
        var extra := Min(available, rest);
        m := SetType(SetClean(m, clean + extra), bit);
        SetLastMarker(c, m);
        blocks := blocks[lastMarker := m];
        rest := rest - extra;
        d := c.(marker := m);
      }
      assert blocks == Flat(d) && lastMarker == LastMarker(d) && PushRun(c, bit, k) == NewMarkers(d, bit, rest);
      SetLastMarker(d, m);
      if rest > 0 {
        if lastMarker == |blocks| - 1 {
          assert Dirty(m) == 0 ==> SetDirty(m, 0) == m by { Setters(m, true, 0); FieldsDetermine(m); }
          blocks := blocks[lastMarker := SetDirty(m, 0)];
        }
        var markers, last := rest / CLEAN_MAX, rest % CLEAN_MAX;
        FlatNewMarkers(d, bit, rest);
        RunMarkers(bit, last);
        blocks := blocks + Copies(SetType(CLEAN_MASK, bit), markers);
        if last > 0 {
          blocks := blocks + [SetType(SetClean(NONE, last), bit)];
        }
        lastMarker := |blocks| - 1;
      } else {
        NoNewMarkers(d, bit);
      }
      words := RepeatWord(words, Word0(bit), k);
    }
  }

  lemma NoNewMarkers(c: Chain, b: bool)
    requires c.More?
    ensures NewMarkers(c, b, 0) == c
  {
  }

  lemma RepLength(b: bool, n: nat)
    ensures |Rep(b, n)| == n
    ensures n == 0 ==> Rep(b, n) == []
    ensures n == 1 ==> Rep(b, n) == [b]
  {
  }

  lemma RepSum(b: bool, m: nat, n: nat)
    ensures Rep(b, m + n) == Rep(b, m) + Rep(b, n)
  {
  }

  lemma PadFalse(t: seq<bool>, n: nat)
    requires |t| + n <= 64
    ensures Pad(t + Rep(false, n)) == Pad(t)
    ensures t == [] ==> Pad(t) == NONE
    ensures |t| == 64 ==> Pad(t) == t
  {
  }

  lemma FlatFirst()
    ensures Flat(Groups(Nil)) == [NONE] && LastMarker(Groups(Nil)) == 0
  {
  }

  lemma SnocParts(ws: WordList, w: Word)
    ensures Concat(ws) + w == Concat(Snoc(ws, w)) + []
  {
  }

  lemma LastPartial(ws: WordList, t: seq<bool>)
    requires |t| <= 64
    ensures (64 * Count(ws) + |t|) % 64 == if |t| == 64 then 0 else |t|
  {
  }

  /** Setting bits behind the tail in the last block. */
  lemma SetTail(a: seq<Word>, t: seq<bool>, v: seq<bool>)
    requires |t| + |v| <= 64
    ensures var bs := a + [Pad(t)];
            bs[|bs| - 1 := Or(bs[|bs| - 1], Shl(Pad(v), |t|))] == a + [Pad(t + v)]
  {
    hide Or, Shl, Pad;
    OrBehind(t, v);
    LastBlock(a, Pad(t), Pad(t + v));
  }

  // ----- Fast and slow appends

  lemma SameState(a: EwahBitmap, b: EwahBitmap)
    requires a.Valid() && b.Valid() && a.Bits() == b.Bits()
    ensures a.blocks == b.blocks && a.lastMarker == b.lastMarker && a.numBits == b.numBits
  {
    hide Encodes;
    BitsDetermineState(a.blocks, a.lastMarker, a.numBits, a.words, a.tail, b.blocks, b.lastMarker, b.numBits, b.words,
      b.tail);
  }

  /** Appends bits one by one. */
  method AppendEach(bm: EwahBitmap, bits: seq<bool>)
    requires bm.Valid()
    modifies bm
    ensures bm.Valid() && bm.Bits() == old(bm.Bits()) + bits
  {
    hide Encodes, EwahBitmap.Bits;
    assert bits[..0] == [] && old(bm.Bits()) + [] == old(bm.Bits());
    for i := 0 to |bits|
      invariant bm.Valid() && bm.Bits() == old(bm.Bits()) + bits[..i]
    {
      bm.AppendBit(bits[i]);
      assert bits[..i + 1] == bits[..i] + [bits[i]];
      Assoc(old(bm.Bits()), bits[..i], [bits[i]]);
    }
    assert bits[..|bits|] == bits;
  }

  /** Appending n equal bits at once leaves the same blocks, last marker and bit count
      as appending them one by one. */
  method AppendBitsIsAppendEach(fast: EwahBitmap, slow: EwahBitmap, bit: bool, n: nat)
    requires fast != slow && fast.Valid() && slow.Valid() && fast.Bits() == slow.Bits()
    modifies fast, slow
    ensures fast.blocks == slow.blocks && fast.lastMarker == slow.lastMarker && fast.numBits == slow.numBits
    ensures fast.Valid() && slow.Valid() && fast.Bits() == old(fast.Bits()) + Rep(bit, n)
  {
    hide Encodes, EwahBitmap.Bits, Rep;
    fast.AppendBits(bit, n);
    AppendEach(slow, Rep(bit, n));
    SameState(fast, slow);
  }

  /** So does appending the n low bits of a word. */
  method AppendBlockIsAppendEach(fast: EwahBitmap, slow: EwahBitmap, value: Word, n: nat)
    requires fast != slow && fast.Valid() && slow.Valid() && fast.Bits() == slow.Bits() && 1 <= n <= 64
    modifies fast, slow
    ensures fast.blocks == slow.blocks && fast.lastMarker == slow.lastMarker && fast.numBits == slow.numBits
    ensures fast.Valid() && slow.Valid() && fast.Bits() == old(fast.Bits()) + value[..n]
  {
    hide Encodes, EwahBitmap.Bits;
    fast.AppendBlock(value, n);
    AppendEach(slow, value[..n]);
    SameState(fast, slow);
  }

  /** Flipping twice undoes itself, on the stored blocks. */
  method FlipTwice(bm: EwahBitmap)
    requires bm.Valid()
    modifies bm
    ensures bm.Valid() && bm.Bits() == old(bm.Bits())
    ensures bm.blocks == old(bm.blocks) && bm.lastMarker == old(bm.lastMarker) && bm.numBits == old(bm.numBits)
  {
    hide Encodes, EwahBitmap.Bits;
    var copy := new EwahBitmap.Copy(bm);
    SameState(copy, bm);
    ghost var bits := bm.Bits();
    bm.Flip();
    bm.Flip();
    assert Not(Not(bits)) == bits;
    SameState(copy, bm);
  }
}
