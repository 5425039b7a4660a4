/** The canonical EWAH encoding of a bit sequence. Full words are folded one by
    one into marker groups; the last one to 64 bits stay in a last block that no
    marker counts. Word lists and marker chains grow at their end, as the bitmap
    does. */
module Ewah {
  import opened Words

  datatype WordList = Nil | Snoc(init: WordList, word: Word)

  function Concat(ws: WordList): (bits: seq<bool>)
    ensures |bits| == 64 * Count(ws)
  {
    match ws
    case Nil => []
    case Snoc(init, w) => Concat(init) + w
  }

  function Count(ws: WordList): nat
  {
    match ws
    case Nil => 0
    case Snoc(init, _) => Count(init) + 1
  }

  function ToSeq(ws: WordList): (s: seq<Word>)
    ensures |s| == Count(ws)
  {
    match ws
    case Nil => []
    case Snoc(init, w) => ToSeq(init) + [w]
  }

  // ----- Marker chains

  /** A chain of groups, each a marker and the literals behind it. */
  datatype Chain = Start | More(init: Chain, marker: Word, literals: WordList)

  function Size(c: Chain): nat
  {
    match c
    case Start => 0
    case More(init, _, ls) => Size(init) + 1 + Count(ls)
  }

  function Flat(c: Chain): (bs: seq<Word>)
    ensures |bs| == Size(c)
  {
    match c
    case Start => []
    case More(init, m, ls) => Flat(init) + [m] + ToSeq(ls)
  }

  /** The index of the last marker in the flattened chain. */
  function LastMarker(c: Chain): nat
    requires c.More?
  {
    Size(c.init)
  }

  /** Every marker counts exactly the literals behind it. */
  ghost predicate Counts(c: Chain)
  {
    c.More? ==> Dirty(c.marker) == Count(c.literals) && Counts(c.init)
  }

  /** Besides, a last marker without literals has clean words, unless it is the
      very first block and still empty. */
  ghost predicate Linked(c: Chain)
  {
    && c.More?
    && Counts(c)
    && (c.literals == Nil ==> c == FIRST || Clean(c.marker) > 0)
  }

  const FIRST := More(Start, NONE, Nil)

  function PushWord(c: Chain, w: Word): (r: Chain)
    requires c.More?
    ensures r.More?
  {
    var m := c.marker;
    if AllOrNone(w) then
      if c.literals == Nil && Clean(m) == 0 then
        c.(marker := Marker(w[0], 1, 0))
      else if c.literals == Nil && w[0] == Type(m) && Clean(m) != CLEAN_MAX then
        c.(marker := Marker(w[0], Clean(m) + 1, 0))
      else
        More(c, Marker(w[0], 1, 0), Nil)
    else if Dirty(m) == DIRTY_MAX then
      More(c, Marker(false, 0, 1), Snoc(Nil, w))
    else
      More(c.init, Marker(Type(m), Clean(m), Dirty(m) + 1), Snoc(c.literals, w))
  }

  function Groups(ws: WordList): (c: Chain)
    ensures c.More?
  {
    match ws
    case Nil => FIRST
    case Snoc(init, w) => PushWord(Groups(init), w)
  }

  lemma PushWordLinked(c: Chain, w: Word)
    requires Linked(c)
    ensures Linked(PushWord(c, w))
  {
    hide Marker, Clean, Dirty, Type, AllOrNone;
    var m := c.marker;
    FieldBounds(m);
    MarkerFields(w[0], 1, 0);
    MarkerFields(false, 0, 1);
    if Clean(m) < CLEAN_MAX {
      MarkerFields(w[0], Clean(m) + 1, 0);
    }
    if Dirty(m) < DIRTY_MAX {
      MarkerFields(Type(m), Clean(m), Dirty(m) + 1);
    }
    assert Count(Snoc(Nil, w)) == 1;
  }

  lemma {:induction false} GroupsLinked(ws: WordList)
    ensures Linked(Groups(ws))
  {
    match ws
    case Nil =>
      SmallMarkers();
    case Snoc(init, w) =>
      GroupsLinked(init);
      PushWordLinked(Groups(init), w);
  }

  // ----- Reading the blocks back

  /** How many bits of the last block are in use. */
  function LastWidth(numBits: nat): (n: nat)
    ensures 1 <= n <= 64
  {
    if numBits % 64 == 0 then 64 else numBits % 64
  }

  /** The bits the blocks stand for from a position on, read from left to right:
      the last block is a partial literal, a block within a dirty run is a literal
      and any other block is a marker. No chain needs to be known for this. */
  function Decode(blocks: seq<Word>, numBits: nat, pos: nat, dirty: nat): (bits: seq<bool>)
    requires pos <= |blocks|
    decreases |blocks| - pos
  {
    if pos == |blocks| then []
    else if pos + 1 == |blocks| then blocks[pos][..LastWidth(numBits)]
    else if dirty > 0 then blocks[pos] + Decode(blocks, numBits, pos + 1, dirty - 1)
    else Rep(Type(blocks[pos]), 64 * Clean(blocks[pos]))
         + Decode(blocks, numBits, pos + 1, Dirty(blocks[pos]))
  }

  function ChainBits(c: Chain): (bits: seq<bool>)
  {
    match c
    case Start => []
    case More(init, m, ls) => ChainBits(init) + GroupBits(m, ls)
  }

  function GroupBits(m: Word, ls: WordList): seq<bool>
  {
    Rep(Type(m), 64 * Clean(m)) + Concat(ls)
  }

  lemma Assoc<T>(a: seq<T>, b: seq<T>, c: seq<T>)
    ensures (a + b) + c == a + (b + c)
  {
  }

  /** The blocks from a position on hold these literals. */
  ghost predicate HoldsWords(bs: seq<Word>, pos: nat, ls: WordList)
    requires pos + Count(ls) <= |bs|
  {
    ls.Snoc? ==> HoldsWords(bs, pos, ls.init) && bs[pos + Count(ls.init)] == ls.word
  }

  /** The blocks start with this chain. */
  ghost predicate HoldsChain(bs: seq<Word>, c: Chain)
    requires Size(c) <= |bs|
  {
    c.More? ==>
      && HoldsChain(bs, c.init)
      && bs[Size(c.init)] == c.marker
      && HoldsWords(bs, Size(c.init) + 1, c.literals)
  }

  lemma {:induction false} HoldsConcat(a: seq<Word>, ls: WordList, rest: seq<Word>)
    ensures HoldsWords(a + ToSeq(ls) + rest, |a|, ls)
  {
    match ls
    case Nil =>
    case Snoc(init, w) =>
      HoldsConcat(a, init, [w] + rest);
      assert a + ToSeq(ls) + rest == a + ToSeq(init) + ([w] + rest);
  }

  lemma {:induction false} HoldsFlat(c: Chain, rest: seq<Word>)
    ensures HoldsChain(Flat(c) + rest, c)
  {
    match c
    case Start =>
    case More(init, m, ls) =>
      var a := Flat(init);
      assert Flat(c) + rest == a + ([m] + ToSeq(ls) + rest);
      HoldsFlat(init, [m] + ToSeq(ls) + rest);
      assert Flat(c) + rest == (a + [m]) + ToSeq(ls) + rest;
      HoldsConcat(a + [m], ls, rest);
  }

  lemma {:induction false} DecodeLiterals(bs: seq<Word>, n: nat, pos: nat, ls: WordList, d: nat)
    requires pos + Count(ls) < |bs| && HoldsWords(bs, pos, ls)
    ensures Decode(bs, n, pos, Count(ls) + d) == Concat(ls) + Decode(bs, n, pos + Count(ls), d)
  {
    hide Rep, Type, Clean, Dirty;
    match ls
    case Nil =>
    case Snoc(init, w) =>
      DecodeLiterals(bs, n, pos, init, d + 1);
      Assoc(Concat(init), w, Decode(bs, n, pos + Count(ls), d));
  }

  lemma DecodeGroup(bs: seq<Word>, n: nat, pos: nat, m: Word, ls: WordList)
    requires pos + 1 + Count(ls) < |bs| && bs[pos] == m && Dirty(m) == Count(ls)
    requires HoldsWords(bs, pos + 1, ls)
    ensures Decode(bs, n, pos, 0)
         == GroupBits(m, ls) + Decode(bs, n, pos + 1 + Count(ls), 0)
  {
    hide Rep, Type, Clean, Dirty, Concat, HoldsWords;
    DecodeLiterals(bs, n, pos + 1, ls, 0);
    Assoc(Rep(Type(m), 64 * Clean(m)), Concat(ls), Decode(bs, n, pos + 1 + Count(ls), 0));
  }

  /** Hopping over a chain reads exactly its bits and ends behind it. */
  lemma {:induction false} DecodeChain(c: Chain, bs: seq<Word>, n: nat)
    requires Counts(c) && Size(c) < |bs| && HoldsChain(bs, c)
    ensures Decode(bs, n, 0, 0) == ChainBits(c) + Decode(bs, n, Size(c), 0)
  {
    hide Rep, Type, Clean, Dirty, Decode, GroupBits, HoldsWords;
    match c
    case Start =>
    case More(init, m, ls) =>
      DecodeChain(init, bs, n);
      DecodeGroup(bs, n, Size(init), m, ls);
      Assoc(ChainBits(init), GroupBits(m, ls), Decode(bs, n, Size(c), 0));
  }

  lemma RepWords(w: Word, k: nat)
    requires AllOrNone(w)
    ensures Rep(w[0], 64 * (k + 1)) == Rep(w[0], 64 * k) + w
    ensures Rep(w[0], 64) == w
  {
  }

  lemma CleanGroupBits(w: Word, k: nat)
    requires AllOrNone(w) && k < CLEAN_MAX
    ensures GroupBits(Marker(w[0], k + 1, 0), Nil) == Rep(w[0], 64 * k) + w
    ensures GroupBits(Marker(w[0], 1, 0), Nil) == w
  {
    hide Type, Clean, Dirty, Marker, Rep, AllOrNone;
    MarkerFields(w[0], k + 1, 0);
    MarkerFields(w[0], 1, 0);
    RepWords(w, k);
  }

  lemma LiteralGroupBits(m: Word, ls: WordList, w: Word)
    requires Dirty(m) < DIRTY_MAX
    ensures GroupBits(Marker(Type(m), Clean(m), Dirty(m) + 1), Snoc(ls, w)) == GroupBits(m, ls) + w
  {
    hide Type, Clean, Dirty, Marker, Rep;
    FieldBounds(m);
    MarkerFields(Type(m), Clean(m), Dirty(m) + 1);
  }

  lemma SmallGroupBits(m: Word, w: Word)
    ensures GroupBits(m, Nil) == Rep(Type(m), 64 * Clean(m))
    ensures Clean(m) == 0 ==> GroupBits(m, Nil) == []
    ensures GroupBits(Marker(false, 0, 1), Snoc(Nil, w)) == w
  {
    hide Type, Clean, Dirty, Marker;
    MarkerFields(false, 0, 1);
  }

  lemma PushWordBits(c: Chain, w: Word)
    requires Linked(c)
    ensures ChainBits(PushWord(c, w)) == ChainBits(c) + w
  {
    hide GroupBits, Rep, Type, Clean, Dirty, Marker, AllOrNone;
    var m := c.marker;
    assert ChainBits(c) + w == ChainBits(c.init) + (GroupBits(m, c.literals) + w);
    FieldBounds(m);
    SmallGroupBits(m, w);
    if AllOrNone(w) {
      CleanGroupBits(w, 0);
      if Clean(m) < CLEAN_MAX && c.literals == Nil && w[0] == Type(m) {
        CleanGroupBits(w, Clean(m));
      }
    } else if Dirty(m) < DIRTY_MAX {
      LiteralGroupBits(m, c.literals, w);
    }
  }

  /** The groups stand for the words that were folded into them. */
  lemma {:induction false} GroupsBits(ws: WordList)
    ensures ChainBits(Groups(ws)) == Concat(ws)
  {
    match ws
    case Nil =>
      SmallMarkers();
    case Snoc(init, w) =>
      hide PushWord;
      GroupsBits(init);
      GroupsLinked(init);
      PushWordBits(Groups(init), w);
  }

  // ----- Runs of clean words

  function FullMarkers(c: Chain, b: bool, q: nat): (r: Chain)
    requires c.More?
    ensures r.More?
  {
    if q == 0 then c else More(FullMarkers(c, b, q - 1), Marker(b, CLEAN_MAX, 0), Nil)
  }

  /** New markers for k clean words behind a chain: full ones first, then one
      with the rest, if any. */
  function NewMarkers(c: Chain, b: bool, k: nat): (r: Chain)
    requires c.More?
    ensures r.More?
  {
    var d := FullMarkers(c, b, k / CLEAN_MAX);
    if k % CLEAN_MAX > 0 then More(d, Marker(b, k % CLEAN_MAX, 0), Nil) else d
  }

  /** Whether the last marker can take up more clean words of this type. */
  predicate Reusable(c: Chain, b: bool)
    requires c.More?
  {
    c.literals == Nil && (Clean(c.marker) == 0 || (Type(c.marker) == b && Clean(c.marker) < CLEAN_MAX))
  }

  function Min(a: nat, b: nat): nat
  {
    if a <= b then a else b
  }

  function PushRun(c: Chain, b: bool, k: nat): (r: Chain)
    requires c.More?
    ensures r.More?
  {
    if Reusable(c, b) then
      var clean := Clean(c.marker);
      var extra := Min(if clean <= CLEAN_MAX then CLEAN_MAX - clean else 0, k);
      NewMarkers(c.(marker := Marker(b, clean + extra, 0)), b, k - extra)
    else
      NewMarkers(c, b, k)
  }

  function Word0(b: bool): (w: Word)
  {
    if b then ALL else NONE
  }

  lemma Word0Clean(b: bool)
    ensures AllOrNone(Word0(b)) && Word0(b)[0] == b && Word0(b) == Rep(b, 64)
  {
  }

  lemma NewMarkersStep(c: Chain, b: bool, k: nat)
    requires c.More? && (k == 0 ==> !Reusable(c, b))
    ensures PushWord(NewMarkers(c, b, k), Word0(b)) == NewMarkers(c, b, k + 1)
  {
    hide Marker, Clean, Dirty, Type, AllOrNone, Rep, Word0;
    Word0Clean(b);
    FieldBounds(c.marker);
    MarkerFields(b, CLEAN_MAX, 0);
    MarkerFields(b, k % CLEAN_MAX, 0);
  }

  /** Pushing equal clean words one by one is pushing them as a run. */
  lemma PushRunStep(c: Chain, b: bool, k: nat)
    requires c.More? && k > 0
    ensures PushRun(c, b, 1) == PushWord(c, Word0(b))
    ensures PushRun(c, b, k + 1) == PushWord(PushRun(c, b, k), Word0(b))
  {
    hide Marker, Clean, Dirty, Type, AllOrNone, Rep, Word0;
    var m := c.marker;
    Word0Clean(b);
    FieldBounds(m);
    if Reusable(c, b) {
      var room := CLEAN_MAX - Clean(m);
      if k < room {
        MarkerFields(b, Clean(m) + k, 0);
      } else {
        var d := c.(marker := Marker(b, CLEAN_MAX, 0));
        MarkerFields(b, CLEAN_MAX, 0);
        NewMarkersStep(d, b, k - room);
        hide NewMarkers;
      }
    } else {
      NewMarkersStep(c, b, 0);
      NewMarkersStep(c, b, k);
      assert NewMarkers(c, b, 0) == c;
      hide NewMarkers;
    }
  }

  function RepeatWord(ws: WordList, w: Word, k: nat): (r: WordList)
    ensures Count(r) == Count(ws) + k
  {
    if k == 0 then ws else Snoc(RepeatWord(ws, w, k - 1), w)
  }

  /** The groups behind a run of equal clean words. */
  lemma {:induction false} GroupsRun(ws: WordList, b: bool, k: nat)
    requires k > 0
    ensures Groups(RepeatWord(ws, Word0(b), k)) == PushRun(Groups(ws), b, k)
  {
    hide Word0, PushRun, PushWord;
    PushRunStep(Groups(ws), b, k);
    if k == 1 {
      assert RepeatWord(ws, Word0(b), 1) == Snoc(ws, Word0(b));
    } else {
      GroupsRun(ws, b, k - 1);
      PushRunStep(Groups(ws), b, k - 1);
    }
  }

  lemma {:induction false} ConcatRun(ws: WordList, b: bool, k: nat)
    ensures Concat(RepeatWord(ws, Word0(b), k)) == Concat(ws) + Rep(b, 64 * k)
  {
    if k > 0 {
      ConcatRun(ws, b, k - 1);
      Word0Clean(b);
      RepWords(Word0(b), k - 1);
      Assoc(Concat(ws), Rep(b, 64 * (k - 1)), Word0(b));
    }
  }

  function Copies(w: Word, n: nat): (r: seq<Word>)
  {
    seq(n, _ => w)
  }

  lemma {:induction false} FlatFullMarkers(c: Chain, b: bool, q: nat)
    requires c.More?
    ensures Flat(FullMarkers(c, b, q)) == Flat(c) + Copies(Marker(b, CLEAN_MAX, 0), q)
  {
    hide Marker;
    if q > 0 {
      FlatFullMarkers(c, b, q - 1);
    }
  }

  /** The flattened form of new markers: copies of the full marker, then the
      marker with the rest, if any. */
  lemma FlatNewMarkers(c: Chain, b: bool, k: nat)
    requires c.More?
    ensures Flat(NewMarkers(c, b, k))
         == Flat(c) + Copies(Marker(b, CLEAN_MAX, 0), k / CLEAN_MAX)
            + if k % CLEAN_MAX > 0 then [Marker(b, k % CLEAN_MAX, 0)] else []
    ensures k > 0 ==> LastMarker(NewMarkers(c, b, k)) == |Flat(NewMarkers(c, b, k))| - 1
  {
    hide Marker, Copies;
    FlatFullMarkers(c, b, k / CLEAN_MAX);
  }

  // ----- Complement

  function FlipMarker(m: Word): Word
  {
    if Clean(m) > 0 then SetType(m, !Type(m)) else m
  }

  function NotWords(ws: WordList): (r: WordList)
    ensures Count(r) == Count(ws)
  {
    match ws
    case Nil => Nil
    case Snoc(init, w) => Snoc(NotWords(init), Not(w))
  }

  function FlipChain(c: Chain): (r: Chain)
    ensures c.More? ==> r.More?
  {
    match c
    case Start => Start
    case More(init, m, ls) => More(FlipChain(init), FlipMarker(m), NotWords(ls))
  }

  /** The blocks from a position up to an end with literals complemented and
      marker types inverted, read from left to right like Decode. */
  function FlipFrom(bs: seq<Word>, pos: nat, dirty: nat, end: nat): (r: seq<Word>)
    requires pos <= end <= |bs|
    ensures |r| == end - pos
    decreases end - pos
  {
    if pos == end then []
    else if dirty > 0 then [Not(bs[pos])] + FlipFrom(bs, pos + 1, dirty - 1, end)
    else [FlipMarker(bs[pos])] + FlipFrom(bs, pos + 1, Dirty(bs[pos]), end)
  }

  lemma FlipStep(bs: seq<Word>, pos: nat, dirty: nat, end: nat)
    requires pos < end <= |bs|
    ensures FlipFrom(bs, pos, dirty, end)
         == [if dirty > 0 then Not(bs[pos]) else FlipMarker(bs[pos])]
            + FlipFrom(bs, pos + 1, if dirty > 0 then dirty - 1 else Dirty(bs[pos]), end)
  {
    hide Not, FlipMarker, Dirty;
  }

  lemma {:induction false} FlipLiterals(bs: seq<Word>, pos: nat, ls: WordList, d: nat, end: nat)
    requires pos + Count(ls) <= end <= |bs| && HoldsWords(bs, pos, ls)
    ensures FlipFrom(bs, pos, Count(ls) + d, end)
         == ToSeq(NotWords(ls)) + FlipFrom(bs, pos + Count(ls), d, end)
  {
    hide Not, FlipMarker, Dirty, FlipFrom;
    match ls
    case Nil =>
    case Snoc(init, w) =>
      FlipLiterals(bs, pos, init, d + 1, end);
      FlipStep(bs, pos + Count(init), d + 1, end);
      Assoc(ToSeq(NotWords(init)), [Not(w)], FlipFrom(bs, pos + Count(ls), d, end));
  }

  lemma FlipGroup(bs: seq<Word>, pos: nat, m: Word, ls: WordList, end: nat)
    requires pos + 1 + Count(ls) <= end <= |bs| && bs[pos] == m && Dirty(m) == Count(ls)
    requires HoldsWords(bs, pos + 1, ls)
    ensures FlipFrom(bs, pos, 0, end)
         == [FlipMarker(m)] + ToSeq(NotWords(ls)) + FlipFrom(bs, pos + 1 + Count(ls), 0, end)
  {
    hide Not, FlipMarker, Dirty, ToSeq, NotWords, HoldsWords;
    FlipLiterals(bs, pos + 1, ls, 0, end);
    Assoc([FlipMarker(m)], ToSeq(NotWords(ls)), FlipFrom(bs, pos + 1 + Count(ls), 0, end));
  }

  /** Hopping over a chain flips exactly its groups. */
  lemma {:induction false} FlipFromChain(c: Chain, bs: seq<Word>, end: nat)
    requires Counts(c) && Size(c) <= end <= |bs| && HoldsChain(bs, c)
    ensures FlipFrom(bs, 0, 0, end) == Flat(FlipChain(c)) + FlipFrom(bs, Size(c), 0, end)
  {
    hide Not, FlipMarker, Dirty, FlipFrom, HoldsWords, ToSeq, NotWords;
    match c
    case Start =>
    case More(init, m, ls) =>
      FlipFromChain(init, bs, end);
      FlipGroup(bs, Size(init), m, ls, end);
      var x, l := Flat(FlipChain(init)), ToSeq(NotWords(ls));
      Assoc(x, [FlipMarker(m)], l);
      Assoc(x, [FlipMarker(m)] + l, FlipFrom(bs, Size(c), 0, end));
  }

  lemma FlipMarkerFields(m: Word)
    ensures Clean(FlipMarker(m)) == Clean(m) && Dirty(FlipMarker(m)) == Dirty(m)
    ensures Type(FlipMarker(m)) == if Clean(m) > 0 then !Type(m) else Type(m)
    ensures FlipMarker(m) == Marker(if Clean(m) > 0 then !Type(m) else Type(m), Clean(m), Dirty(m))
    ensures FlipMarker(m) == if Clean(m) > 0 then SetType(m, !Type(m)) else m
  {
    hide Marker, Clean, Dirty, Type, SetType;
    FieldBounds(m);
    FieldsDetermine(m);
    Setters(m, !Type(m), 0);
    MarkerFields(!Type(m), Clean(m), Dirty(m));
  }

  lemma NotClean(w: Word)
    ensures AllOrNone(Not(w)) <==> AllOrNone(w)
    ensures Not(w)[0] == !w[0]
  {
    assert AllOrNone(w) ==> Not(w) == Rep(!w[0], 64);
    if AllOrNone(Not(w)) {
      forall i | 0 <= i < 64
        ensures w[i] == Rep(w[0], 64)[i]
      {
        assert Not(w)[i] == Not(w)[0];
      }
      assert w == Rep(w[0], 64);
    }
  }

  lemma PushCleanFlip(c: Chain, w: Word)
    requires c.More? && AllOrNone(w)
    ensures PushWord(FlipChain(c), Not(w)) == FlipChain(PushWord(c, w))
  {
    hide Marker, Clean, Dirty, Type, FlipMarker, Not, AllOrNone;
    var m := c.marker;
    FieldBounds(m);
    NotClean(w);
    FlipMarkerFields(m);
    MarkerFlip(w[0], 1, 0);
    if Clean(m) < CLEAN_MAX {
      MarkerFlip(w[0], Clean(m) + 1, 0);
    }
  }

  lemma PushDirtyFlip(c: Chain, w: Word)
    requires c.More? && !AllOrNone(w)
    ensures PushWord(FlipChain(c), Not(w)) == FlipChain(PushWord(c, w))
  {
    hide Marker, Clean, Dirty, Type, FlipMarker, Not, AllOrNone;
    var m := c.marker;
    FieldBounds(m);
    NotClean(w);
    FlipMarkerFields(m);
    MarkerFlip(false, 0, 1);
    if Dirty(m) < DIRTY_MAX {
      MarkerFlip(Type(m), Clean(m), Dirty(m) + 1);
    }
  }

  /** Pushing a complemented word on a flipped chain flips the pushed chain. */
  lemma PushWordFlip(c: Chain, w: Word)
    requires c.More?
    ensures PushWord(FlipChain(c), Not(w)) == FlipChain(PushWord(c, w))
  {
    hide PushWord, FlipChain, Not, AllOrNone;
    if AllOrNone(w) {
      PushCleanFlip(c, w);
    } else {
      PushDirtyFlip(c, w);
    }
  }

  lemma MarkerFlip(b: bool, clean: nat, dirty: nat)
    requires clean <= CLEAN_MAX && dirty <= DIRTY_MAX
    ensures FlipMarker(Marker(b, clean, dirty)) == Marker(if clean > 0 then !b else b, clean, dirty)
  {
    hide Marker, Clean, Dirty, Type, FlipMarker;
    MarkerFields(b, clean, dirty);
    FlipMarkerFields(Marker(b, clean, dirty));
  }

  /** Flipping the groups of some words gives the groups of their complements. */
  lemma {:induction false} GroupsFlip(ws: WordList)
    ensures FlipChain(Groups(ws)) == Groups(NotWords(ws))
  {
    hide PushWord, Not, FlipMarker;
    match ws
    case Nil =>
      SmallMarkers();
      FlipMarkerFields(NONE);
    case Snoc(init, w) =>
      GroupsFlip(init);
      PushWordFlip(Groups(init), w);
  }

  lemma {:induction false} ConcatNot(ws: WordList)
    ensures Concat(NotWords(ws)) == Not(Concat(ws))
  {
    match ws
    case Nil =>
    case Snoc(init, w) =>
      ConcatNot(init);
      NotAppend(Concat(init), w);
  }

  lemma NotAppend(a: seq<bool>, b: seq<bool>)
    ensures Not(a + b) == Not(a) + Not(b)
  {
  }

  // ----- One encoding for each bit sequence

  /** A non-empty sequence splits in only one way. */
  lemma {:induction false} SplitUnique(ws: WordList, t: seq<bool>, xs: WordList, u: seq<bool>)
    requires 1 <= |t| <= 64 && 1 <= |u| <= 64
    requires Concat(ws) + t == Concat(xs) + u
    ensures ws == xs && t == u
  {
    hide Concat;
    var s := Concat(ws) + t;
    assert |s| == 64 * Count(ws) + |t| == 64 * Count(xs) + |u|;
    assert s[..|Concat(ws)|] == Concat(ws) && s[|Concat(ws)|..] == t;
    assert s[..|Concat(xs)|] == Concat(xs) && s[|Concat(xs)|..] == u;
    ConcatInjective(ws, xs);
  }

  lemma {:induction false} ConcatInjective(ws: WordList, xs: WordList)
    requires Concat(ws) == Concat(xs)
    ensures ws == xs
  {
    if ws.Snoc? && xs.Snoc? {
      var s := Concat(ws);
      var k := |s| - 64;
      assert s[..k] == Concat(ws.init) && s[k..] == ws.word;
      assert s[..k] == Concat(xs.init) && s[k..] == xs.word;
      ConcatInjective(ws.init, xs.init);
    }
  }

  // ----- The run-length form

  ghost predicate Mixed(ws: WordList)
  {
    ws.Snoc? ==> !AllOrNone(ws.word) && Mixed(ws.init)
  }

  /** Clean words are counted, never stored. There is a new marker only where the last
      one cannot count the next word: for a clean word, behind literals or clean words
      of the other type or if the counter is full; for a literal, if that counter is
      full. Only the first marker may be empty. */
  ghost predicate Compressed(c: Chain)
    requires c.More?
  {
    && (Clean(c.marker) == 0 ==> !Type(c.marker))
    && Mixed(c.literals)
    && match c.init
       case Start => c == FIRST || Clean(c.marker) > 0 || c.literals.Snoc?
       case More(_, m, ls) =>
         && Compressed(c.init)
         && c.init != FIRST
         && if Clean(c.marker) == 0 then c.literals.Snoc? && Dirty(m) == DIRTY_MAX
            else ls.Snoc? || Type(m) != Type(c.marker) || Clean(m) == CLEAN_MAX
  }

  lemma PushWordCompressed(c: Chain, w: Word)
    requires Linked(c) && Compressed(c)
    ensures Compressed(PushWord(c, w))
  {
    hide Marker, Clean, Dirty, Type, AllOrNone;
    var m := c.marker;
    FieldBounds(m);
    SmallMarkers();
    MarkerFields(w[0], 1, 0);
    MarkerFields(false, 0, 1);
    if AllOrNone(w) {
      if Clean(m) < CLEAN_MAX {
        MarkerFields(w[0], Clean(m) + 1, 0);
      }
    } else if Dirty(m) < DIRTY_MAX {
      MarkerFields(Type(m), Clean(m), Dirty(m) + 1);
    } else {
      assert Mixed(Snoc(Nil, w));
    }
  }

  lemma {:induction false} GroupsCompressed(ws: WordList)
    ensures Compressed(Groups(ws))
  {
    hide PushWord, Compressed;
    match ws
    case Nil => FirstCompressed();
    case Snoc(init, w) =>
      GroupsLinked(init);
      GroupsCompressed(init);
      PushWordCompressed(Groups(init), w);
  }

  lemma FirstCompressed()
    ensures Compressed(FIRST) && ChainBits(FIRST) == [] && Counts(FIRST)
  {
    SmallMarkers();
  }

  /** The last word can be taken off a compressed chain. */
  lemma PopWord(c: Chain) returns (c': Chain, w: Word)
    requires c.More? && Counts(c) && Compressed(c) && c != FIRST
    ensures c'.More? && Counts(c') && Compressed(c') && c == PushWord(c', w)
  {
    hide Marker, Clean, Dirty, Type, AllOrNone;
    var m := c.marker;
    FieldBounds(m);
    FieldsDetermine(m);
    SmallMarkers();
    if c.literals.Snoc? {
      w := c.literals.word;
      MarkerFields(Type(m), Clean(m), Dirty(m) - 1);
      if Clean(m) == 0 && Dirty(m) == 1 && c.init.More? {
        c' := c.init;
      } else {
        c' := More(c.init, Marker(Type(m), Clean(m), Dirty(m) - 1), c.literals.init);
      }
    } else {
      w := Word0(Type(m));
      Word0Clean(Type(m));
      if Clean(m) > 1 {
        MarkerFields(Type(m), Clean(m) - 1, 0);
        c' := c.(marker := Marker(Type(m), Clean(m) - 1, 0));
      } else if c.init.More? {
        c' := c.init;
      } else {
        c' := FIRST;
      }
    }
  }

  /** The words fold into the only compressed chain that has their bits. */
  lemma {:induction false} CompressedExactly(ws: WordList, c: Chain)
    requires c.More? && Counts(c)
    ensures c == Groups(ws) <==> Compressed(c) && ChainBits(c) == Concat(ws)
  {
    hide PushWord, Compressed, Counts, GroupBits;
    GroupsCompressed(ws);
    GroupsBits(ws);
    if Compressed(c) && ChainBits(c) == Concat(ws) {
      FirstCompressed();
      if c != FIRST {
        var c', w := PopWord(c);
        CompressedLinked(c');
        PushWordBits(c', w);
        SplitLast(ws, ChainBits(c'), w);
        CompressedExactly(ws.init, c');
      }
    }
  }

  lemma CompressedLinked(c: Chain)
    requires c.More? && Counts(c) && Compressed(c)
    ensures Linked(c)
  {
  }

  lemma SplitLast(ws: WordList, bits: seq<bool>, w: Word)
    requires Concat(ws) == bits + w
    ensures ws.Snoc? && Concat(ws.init) == bits && ws.word == w
  {
    if ws.Snoc? {
      var k := |Concat(ws)| - 64;
      assert Concat(ws)[..k] == Concat(ws.init) && Concat(ws)[k..] == ws.word;
      assert (bits + w)[..k] == bits && (bits + w)[k..] == w;
    }
  }
}
