/** Prefix-preserving pseudonymization of addresses. Bytes are written with the
    most significant bit first, so that bit k of an address is bit k % 8 of its
    byte k / 8. */
module Pseudonymize {
  type Byte = b: seq<bool> | |b| == 8 witness seq(8, _ => false)
  type Block = b: seq<Byte> | |b| == 16 witness seq(16, _ => ZERO)

  function Fill(bit: bool): Byte { seq(8, _ => bit) }

  const ZERO: Byte := Fill(false)
  const FULL: Byte := Fill(true)

  function And(a: Byte, b: Byte): Byte { seq(8, i requires 0 <= i < 8 => a[i] && b[i]) }

  function Or(a: Byte, b: Byte): Byte { seq(8, i requires 0 <= i < 8 => a[i] || b[i]) }

  function Xor(a: Byte, b: Byte): Byte { seq(8, i requires 0 <= i < 8 => a[i] != b[i]) }

  function Not(a: Byte): Byte { seq(8, i requires 0 <= i < 8 => !a[i]) }

  /** a >> n */
  function Shr(a: Byte, n: nat): Byte { seq(8, i requires 0 <= i < 8 => i >= n && a[i - n]) }

  /** The n most significant bits. */
  function MsbFill(n: nat): Byte { seq(8, i requires 0 <= i < 8 => i < n) }

  const MSB: Byte := MsbFill(1)

  predicate Bit(bytes: seq<Byte>, k: nat)
    requires k < 8 * |bytes|
  {
    bytes[k / 8][k % 8]
  }

  lemma BitOf(bytes: seq<Byte>, i: nat, j: nat)
    requires i < |bytes| && j < 8
    ensures Bit(bytes, 8 * i + j) == bytes[i][j]
  {
    assert (8 * i + j) / 8 == i && (8 * i + j) % 8 == j;
  }

  lemma SameBits(a: seq<Byte>, b: seq<Byte>)
    requires |a| == |b| && forall k :: 0 <= k < 8 * |a| ==> Bit(a, k) == Bit(b, k)
    ensures a == b
  {
    forall i | 0 <= i < |a| ensures a[i] == b[i] {
      forall j | 0 <= j < 8 ensures a[i][j] == b[i][j] {
        BitOf(a, i, j);
        BitOf(b, i, j);
      }
    }
  }

  // ----- The one-time pad

  /** The first k bits of the data, then the padding. */
  ghost function Mixed(data: seq<Byte>, pad: Block, k: nat): (r: Block)
    requires |data| <= 16 && k <= 8 * |data|
  {
    seq(16, i requires 0 <= i < 16 =>
      seq(8, j requires 0 <= j < 8 => if 8 * i + j < k then data[i][j] else pad[i][j]))
  }

  /** One call of the cipher yields bit k of the pad, from the k bits before it. */
  ghost predicate PadBit(cipher: Block -> Block, pad: Block, data: seq<Byte>, k: nat)
    requires |data| <= 16 && k <= 8 * |data|
  {
    cipher(Mixed(data, pad, k))[0][0]
  }

  /** Bit k of the pad depends on the k bits of the data before it only. */
  lemma PadBitPrefix(cipher: Block -> Block, pad: Block, a: seq<Byte>, b: seq<Byte>, k: nat)
    requires |a| == |b| <= 16 && k <= 8 * |a| && Agree(a, b, k)
    ensures PadBit(cipher, pad, a, k) == PadBit(cipher, pad, b, k)
  {
    forall i | 0 <= i < 16
      ensures Mixed(a, pad, k)[i] == Mixed(b, pad, k)[i]
    {
      forall j | 0 <= j < 8
        ensures Mixed(a, pad, k)[i][j] == Mixed(b, pad, k)[i][j]
      {
        if 8 * i + j < k {
          BitOf(a, i, j);
          BitOf(b, i, j);
        }
      }
    }
    assert Mixed(a, pad, k) == Mixed(b, pad, k);
  }

  /** The first k bits are the same. */
  ghost predicate Agree(a: seq<Byte>, b: seq<Byte>, k: nat)
    requires k <= 8 * |a| && k <= 8 * |b|
  {
    forall i :: 0 <= i < k ==> Bit(a, i) == Bit(b, i)
  }

  /** Replacing one byte by the mix of a data byte and a padding byte moves the
      boundary between data and padding by one bit. */
  lemma MixedStep(data: seq<Byte>, pad: Block, k: nat)
    requires |data| <= 16 && k < 8 * |data|
    ensures var mask := Shr(FULL, k % 8 + 1);
            Mixed(data, pad, k)[k / 8 := Or(And(data[k / 8], Not(mask)), And(pad[k / 8], mask))]
              == Mixed(data, pad, k + 1)
  {
    var mask := Shr(FULL, k % 8 + 1);
    var byte := Or(And(data[k / 8], Not(mask)), And(pad[k / 8], mask));
    var mixed, next := Mixed(data, pad, k)[k / 8 := byte], Mixed(data, pad, k + 1);
    assert forall j :: 0 <= j < 8 ==> mask[j] == (j >= k % 8 + 1);
    assert byte == next[k / 8];
    forall i | 0 <= i < 16
      ensures mixed[i] == next[i]
    {
      if i != k / 8 {
        assert Mixed(data, pad, k)[i] == next[i];
      }
    }
  }

  /** The bits of the pad below k are set, the others are still zero. */
  ghost predicate PadFilled(cipher: Block -> Block, pad: Block, data: seq<Byte>, result: seq<Byte>, k: nat)
    requires |data| <= 16
  {
    && |result| == |data| && k <= 8 * |data|
    && forall i :: 0 <= i < 8 * |data| ==> Bit(result, i) == (i < k && PadBit(cipher, pad, data, i))
  }

  lemma PadStep(cipher: Block -> Block, pad: Block, data: seq<Byte>, result: seq<Byte>, k: nat, out: Byte)
    requires |data| <= 16 && k < 8 * |data| && PadFilled(cipher, pad, data, result, k)
    requires out[0] == PadBit(cipher, pad, data, k)
    ensures PadFilled(cipher, pad, data, result[k / 8 := Or(result[k / 8], Shr(And(out, MSB), k % 8))], k + 1)
  {
    hide PadBit;
    var byte := Or(result[k / 8], Shr(And(out, MSB), k % 8));
    var result' := result[k / 8 := byte];
    assert forall j :: 0 <= j < 8 ==> Shr(And(out, MSB), k % 8)[j] == (j == k % 8 && out[0]);
    forall i | 0 <= i < 8 * |data|
      ensures Bit(result', i) == (i < k + 1 && PadBit(cipher, pad, data, i))
    {
      assert Bit(result, i) == (i < k && PadBit(cipher, pad, data, i));
      assert i / 8 == k / 8 ==> Bit(result', i) == byte[i % 8];
      assert i == 8 * (i / 8) + i % 8 && k == 8 * (k / 8) + k % 8;
    }
  }

  class AddressEncryptor {
    const cipher: Block -> Block
    const pad: Block

    /** The first half of the key is the key of the cipher, the second half is
        encrypted to get the padding. */
    constructor (aes: (Block, Block) -> Block, key: (Block, Block))
      ensures cipher == (x => aes(key.0, x)) && pad == aes(key.0, key.1)
    {
      cipher := x => aes(key.0, x);
      pad := aes(key.0, key.1);
    }

    method GenerateOneTimePad(data: seq<Byte>) returns (oneTimePad: seq<Byte>)
      requires 0 < |data| <= 16
      ensures PadFilled(cipher, pad, data, oneTimePad, 8 * |data|)
    {
      hide PadFilled, PadBit, Mixed, Shr, And, Or, Not;
      var cipherInput := pad;
      var cipherOutput := cipher(cipherInput);
      oneTimePad := seq(|data|, _ => ZERO);
      FirstPad(data, oneTimePad, cipherOutput[0]);
      var byteIndex, bitIndex := 0, 0;
      oneTimePad := oneTimePad[byteIndex := Or(oneTimePad[byteIndex], And(cipherOutput[0], MSB))];
      var i := 0;
      while i < |data| * 8 - 1
        invariant 0 <= i < 8 * |data| && byteIndex == i / 8 && bitIndex == i % 8 && |oneTimePad| == |data|
        invariant cipherInput == Mixed(data, pad, i)
        invariant PadFilled(cipher, pad, data, oneTimePad, i + 1)
      {
        var paddingMask := Shr(FULL, bitIndex + 1);
        var originalMask := Not(paddingMask);
        MixedStep(data, pad, i);
        var mixed := Or(And(data[byteIndex], originalMask), And(pad[byteIndex], paddingMask));
        cipherInput := cipherInput[byteIndex := mixed];
        cipherOutput := cipher(cipherInput);
        i := i + 1;
        byteIndex := i / 8;
        bitIndex := i % 8;
        ThisPadBit(data, i, cipherOutput[0]);
        PadStep(cipher, pad, data, oneTimePad, i, cipherOutput[0]);
        oneTimePad := oneTimePad[byteIndex := Or(oneTimePad[byteIndex], Shr(And(cipherOutput[0], MSB), bitIndex))];
      }
    }

    lemma FirstPad(data: seq<Byte>, zeros: seq<Byte>, out: Byte)
      requires 0 < |data| <= 16 && zeros == seq(|data|, _ => ZERO) && out == cipher(pad)[0]
      ensures pad == Mixed(data, pad, 0)
      ensures PadFilled(cipher, pad, data, zeros[0 := Or(zeros[0], And(out, MSB))], 1)
    {
      forall i | 0 <= i < 16 ensures pad[i] == Mixed(data, pad, 0)[i] {
        assert forall j :: 0 <= j < 8 ==> pad[i][j] == Mixed(data, pad, 0)[i][j];
      }
      assert pad == Mixed(data, pad, 0);
      ThisPadBit(data, 0, out);
      PadStep(cipher, pad, data, zeros, 0, out);
      assert Shr(And(out, MSB), 0) == And(out, MSB);
    }

    lemma ThisPadBit(data: seq<Byte>, k: nat, out: Byte)
      requires |data| <= 16 && k <= 8 * |data| && out == cipher(Mixed(data, pad, k))[0]
      ensures out[0] == PadBit(cipher, pad, data, k)
    {
    }

    /** Encrypts the bytes from an offset on. */
    method Encrypt(address: Block, byteOffset: nat) returns (bytes: Block)
      requires byteOffset < 16
      ensures bytes == Encrypted(cipher, pad, address, byteOffset)
    {
      hide PadBit;
      var data := address[byteOffset..];
      var oneTimePad := GenerateOneTimePad(data);
      bytes := address;
      for i := 0 to |data|
        invariant forall j :: 0 <= j < byteOffset + i ==> bytes[j] == Encrypted(cipher, pad, address, byteOffset)[j]
        invariant forall j :: byteOffset + i <= j < 16 ==> bytes[j] == address[j]
      {
        XoredByte(address, byteOffset, oneTimePad, i);
        bytes := bytes[i + byteOffset := Xor(data[i], oneTimePad[i])];
      }
    }

    lemma XoredByte(address: Block, byteOffset: nat, oneTimePad: seq<Byte>, i: nat)
      requires byteOffset + i < 16 && PadFilled(cipher, pad, address[byteOffset..], oneTimePad, 8 * (16 - byteOffset))
      ensures Xor(address[byteOffset + i], oneTimePad[i]) == Encrypted(cipher, pad, address, byteOffset)[byteOffset + i]
    {
      hide PadBit;
      var data := address[byteOffset..];
      var x := Xor(address[byteOffset + i], oneTimePad[i]);
      var e := Encrypted(cipher, pad, address, byteOffset)[byteOffset + i];
      forall j | 0 <= j < 8
        ensures x[j] == e[j]
      {
        BitOf(oneTimePad, i, j);
        EncryptedAt(cipher, pad, address, byteOffset, i, j);
      }
      assert x == e;
    }
  }

  lemma EncryptedAt(cipher: Block -> Block, pad: Block, address: Block, byteOffset: nat, i: nat, j: nat)
    requires byteOffset + i < 16 && j < 8
    ensures Encrypted(cipher, pad, address, byteOffset)[byteOffset + i][j]
         == (address[byteOffset + i][j] != PadBit(cipher, pad, address[byteOffset..], 8 * i + j))
  {
    hide PadBit;
    var k := byteOffset + i;
    assert 8 * (k - byteOffset) + j == 8 * i + j;
  }

  /** Each bit from an offset on is flipped or not as the bits between the offset
      and it tell. */
  ghost function Encrypted(cipher: Block -> Block, pad: Block, address: Block, byteOffset: nat): (r: Block)
    requires byteOffset < 16
  {
    seq(16, i requires 0 <= i < 16 =>
      if i < byteOffset then address[i]
      else
        seq(8, j requires 0 <= j < 8 =>
          address[i][j] != PadBit(cipher, pad, address[byteOffset..], 8 * (i - byteOffset) + j)))
  }

  // ----- Addresses

  const V4_MAPPED_PREFIX: seq<Byte> := [ZERO, ZERO, ZERO, ZERO, ZERO, ZERO, ZERO, ZERO, ZERO, ZERO, FULL, FULL]

  predicate IsV4(address: Block)
  {
    address[..12] == V4_MAPPED_PREFIX
  }

  function Offset(address: Block): nat
  {
    if IsV4(address) then 12 else 0
  }

  ghost function Pseudonym(aes: (Block, Block) -> Block, key: (Block, Block), address: Block): (r: Block)
  {
    Encrypted(x => aes(key.0, x), aes(key.0, key.1), address, Offset(address))
  }

  method PseudonymizeAddress(aes: (Block, Block) -> Block, key: (Block, Block), address: Block) returns (r: Block)
    ensures r == Pseudonym(aes, key, address)
  {
    hide Encrypted, IsV4;
    var encryptor := new AddressEncryptor(aes, key);
    r := encryptor.Encrypt(address, Offset(address));
  }

  lemma EncryptedBit(cipher: Block -> Block, pad: Block, address: Block, byteOffset: nat, k: nat)
    requires byteOffset < 16 && k < 128
    ensures Bit(Encrypted(cipher, pad, address, byteOffset), k)
         == if k < 8 * byteOffset then Bit(address, k)
            else Bit(address, k) != PadBit(cipher, pad, address[byteOffset..], k - 8 * byteOffset)
  {
    hide PadBit;
    assert 8 * (k / 8 - byteOffset) + k % 8 == k - 8 * byteOffset;
  }

  /** An IPv4-mapped address starts with eighty zeros and sixteen ones. */
  lemma MappedBits(address: Block)
    ensures IsV4(address) <==> forall k :: 0 <= k < 96 ==> Bit(address, k) == (k >= 80)
  {
    if IsV4(address) {
      forall k | 0 <= k < 96 ensures Bit(address, k) == (k >= 80) {
        assert address[k / 8] == V4_MAPPED_PREFIX[k / 8];
      }
    }
    if forall k :: 0 <= k < 96 ==> Bit(address, k) == (k >= 80) {
      forall i | 0 <= i < 12 ensures address[i] == V4_MAPPED_PREFIX[i] {
        forall j | 0 <= j < 8 ensures address[i][j] == V4_MAPPED_PREFIX[i][j] {
          BitOf(address, i, j);
        }
      }
      assert address[..12] == V4_MAPPED_PREFIX;
    }
  }

  lemma MixedBits(data: seq<Byte>, pad: Block, k: nat)
    requires |data| <= 16 && k <= 8 * |data|
    ensures forall j :: 0 <= j < 128 ==> Bit(Mixed(data, pad, k), j) == if j < k then Bit(data, j) else Bit(pad, j)
  {
    forall j | 0 <= j < 128
      ensures Bit(Mixed(data, pad, k), j) == if j < k then Bit(data, j) else Bit(pad, j)
    {
      assert 8 * (j / 8) + j % 8 == j;
    }
  }

  /** What is encrypted, and how: the first 96 bits of an IPv4-mapped address stay, and
      of other addresses none. Any other bit is flipped if the first bit of the cipher
      of a block is set: the bits from there on before it, followed by the padding. */
  lemma PseudonymBits(aes: (Block, Block) -> Block, key: (Block, Block), address: Block, k: nat) returns (block: Block)
    requires k < 128
    ensures var from := if forall i :: 0 <= i < 96 ==> Bit(address, i) == (i >= 80) then 96 else 0;
            if k < from then Bit(Pseudonym(aes, key, address), k) == Bit(address, k)
            else
              && (forall j :: 0 <= j < 128 ==>
                   Bit(block, j) == if j < k - from then Bit(address, from + j) else Bit(aes(key.0, key.1), j))
              && Bit(Pseudonym(aes, key, address), k) == (Bit(address, k) != Bit(aes(key.0, block), 0))
  {
    hide IsV4, Mixed, Bit;
    MappedBits(address);
    var from := 8 * Offset(address);
    var data := address[Offset(address)..];
    EncryptedBit(x => aes(key.0, x), aes(key.0, key.1), address, Offset(address), k);
    if k < from {
      block := address;
    } else {
      block := Mixed(data, aes(key.0, key.1), k - from);
      MixedBits(data, aes(key.0, key.1), k - from);
      forall j | 0 <= j < k - from ensures Bit(data, j) == Bit(address, from + j) {
        BitBehind(address, Offset(address), j);
      }
      FirstBit(aes(key.0, block));
    }
  }

  lemma FirstBit(block: Block)
    ensures Bit(block, 0) == block[0][0]
  {
  }

  lemma BitBehind(address: Block, byteOffset: nat, j: nat)
    requires byteOffset < 16 && j < 128 - 8 * byteOffset
    ensures Bit(address[byteOffset..], j) == Bit(address, 8 * byteOffset + j)
  {
    assert (8 * byteOffset + j) / 8 == byteOffset + j / 8 && (8 * byteOffset + j) % 8 == j % 8;
  }

  /** So a cipher that answers with ones flips all of these bits. */
  lemma AllFlipped(aes: (Block, Block) -> Block, key: (Block, Block), address: Block, k: nat)
    requires k < 128 && forall block :: Bit(aes(key.0, block), 0)
    ensures Bit(Pseudonym(aes, key, address), k) == Bit(address, k)
       <==> k < 96 && forall i :: 0 <= i < 96 ==> Bit(address, i) == (i >= 80)
  {
    hide Pseudonym, Bit;
    var block := PseudonymBits(aes, key, address, k);
  }

  lemma AgreeBehind(a: Block, b: Block, byteOffset: nat, k: nat)
    requires byteOffset < 16 && 8 * byteOffset <= k <= 128 && Agree(a, b, k)
    ensures Agree(a[byteOffset..], b[byteOffset..], k - 8 * byteOffset)
  {
    forall i | 0 <= i < k - 8 * byteOffset
      ensures Bit(a[byteOffset..], i) == Bit(b[byteOffset..], i)
    {
      BitBehind(a, byteOffset, i);
      BitBehind(b, byteOffset, i);
    }
  }

  /** Two encrypted addresses agree on exactly as many leading bits as the
      original ones do. */
  lemma {:induction false} EncryptedAgree(cipher: Block -> Block, pad: Block, a: Block, b: Block, byteOffset: nat,
                                          k: nat)
    requires byteOffset < 16 && k <= 128
    ensures Agree(Encrypted(cipher, pad, a, byteOffset), Encrypted(cipher, pad, b, byteOffset), k) <==> Agree(a, b, k)
  {
    hide Bit, PadBit, Encrypted;
    if k > 0 {
      EncryptedAgree(cipher, pad, a, b, byteOffset, k - 1);
      EncryptedBit(cipher, pad, a, byteOffset, k - 1);
      EncryptedBit(cipher, pad, b, byteOffset, k - 1);
      if Agree(a, b, k - 1) && 8 * byteOffset <= k - 1 {
        AgreeBehind(a, b, byteOffset, k - 1);
        PadBitPrefix(cipher, pad, a[byteOffset..], b[byteOffset..], k - 1 - 8 * byteOffset);
      }
    }
  }

  /** The length of the common prefix. */
  function PrefixLength(a: Block, b: Block, from: nat): (n: nat)
    requires from <= 128
    decreases 128 - from
  {
    if from == 128 || Bit(a, from) != Bit(b, from) then from else PrefixLength(a, b, from + 1)
  }

  lemma {:induction false} PrefixLengthAgrees(a: Block, b: Block, from: nat)
    requires from <= 128 && Agree(a, b, from)
    ensures var n := PrefixLength(a, b, from);
            from <= n <= 128 && Agree(a, b, n) && (n < 128 ==> !Agree(a, b, n + 1))
    decreases 128 - from
  {
    hide Bit;
    if from < 128 {
      if Bit(a, from) == Bit(b, from) {
        PrefixLengthAgrees(a, b, from + 1);
      }
    }
  }

  lemma AgreeLess(a: Block, b: Block, m: nat, n: nat)
    requires m <= n <= 128
    ensures Agree(a, b, n) ==> Agree(a, b, m)
    ensures Agree(a, b, 0)
  {
  }

  /** Pseudonyms of two addresses of one family share a prefix of exactly the
      length that the addresses share. */
  lemma PrefixPreserved(aes: (Block, Block) -> Block, key: (Block, Block), a: Block, b: Block)
    requires IsV4(a) == IsV4(b)
    ensures PrefixLength(Pseudonym(aes, key, a), Pseudonym(aes, key, b), 0) == PrefixLength(a, b, 0)
  {
    hide Agree, PrefixLength, IsV4, Encrypted;
    var p, q := Pseudonym(aes, key, a), Pseudonym(aes, key, b);
    var m, n := PrefixLength(p, q, 0), PrefixLength(a, b, 0);
    AgreeLess(a, b, 0, 0);
    AgreeLess(p, q, 0, 0);
    PrefixLengthAgrees(a, b, 0);
    PrefixLengthAgrees(p, q, 0);
    PseudonymsAgree(aes, key, a, b, m);
    PseudonymsAgree(aes, key, a, b, n);
    if m < n {
      AgreeLess(a, b, m + 1, n);
      PseudonymsAgree(aes, key, a, b, m + 1);
    } else if n < m {
      AgreeLess(a, b, n + 1, m);
    }
  }

  lemma PseudonymsAgree(aes: (Block, Block) -> Block, key: (Block, Block), a: Block, b: Block, k: nat)
    requires IsV4(a) == IsV4(b) && k <= 128
    ensures Agree(Pseudonym(aes, key, a), Pseudonym(aes, key, b), k) <==> Agree(a, b, k)
  {
    hide Agree, IsV4, Encrypted;
    EncryptedAgree(x => aes(key.0, x), aes(key.0, key.1), a, b, Offset(a), k);
  }

  /** Different addresses of one family get different pseudonyms. */
  lemma Injective(aes: (Block, Block) -> Block, key: (Block, Block), a: Block, b: Block)
    requires IsV4(a) == IsV4(b) && Pseudonym(aes, key, a) == Pseudonym(aes, key, b)
    ensures a == b
  {
    hide IsV4, Encrypted, Bit;
    PseudonymsAgree(aes, key, a, b, 128);
    SameBits(a, b);
  }

  /** An IPv4-mapped address stays one. */
  lemma StaysV4(aes: (Block, Block) -> Block, key: (Block, Block), a: Block)
    requires IsV4(a)
    ensures IsV4(Pseudonym(aes, key, a))
    ensures Pseudonym(aes, key, a)[..12] == a[..12]
  {
    hide PadBit;
    var p := Pseudonym(aes, key, a);
    assert p[..12] == a[..12];
  }

  // ----- Prefixes of addresses

  /** Compares the first k bits, byte by byte. */
  method Compare(x: Block, y: Block, k: nat) returns (r: bool)
    requires k <= 128
    ensures r <==> Agree(x, y, k)
  {
    if k == 0 {
      return true;
    }
    var left, i := k, 0;
    while left > 8
      invariant 0 < left && left + 8 * i == k
      invariant forall j :: 0 <= j < i ==> x[j] == y[j]
    {
      if x[i] != y[i] {
        DifferentByte(x, y, i, k);
        return false;
      }
      left := left - 8;
      i := i + 1;
    }
    var mask := MsbFill(left);
    r := And(x[i], mask) == And(y[i], mask);
    LastByte(x, y, i, left);
  }

  lemma DifferentByte(x: Block, y: Block, i: nat, k: nat)
    requires i < 16 && 8 * i + 8 <= k <= 128 && x[i] != y[i]
    ensures !Agree(x, y, k)
  {
    var j :| 0 <= j < 8 && x[i][j] != y[i][j];
    BitOf(x, i, j);
    BitOf(y, i, j);
    assert Bit(x, 8 * i + j) != Bit(y, 8 * i + j);
  }

  lemma LastByte(x: Block, y: Block, i: nat, left: nat)
    requires i < 16 && 0 < left <= 8 && forall j :: 0 <= j < i ==> x[j] == y[j]
    ensures And(x[i], MsbFill(left)) == And(y[i], MsbFill(left)) <==> Agree(x, y, 8 * i + left)
  {
    var a, b := And(x[i], MsbFill(left)), And(y[i], MsbFill(left));
    if a == b {
      forall n | 0 <= n < 8 * i + left ensures Bit(x, n) == Bit(y, n) {
        if n / 8 == i {
          assert a[n % 8] == x[i][n % 8] && b[n % 8] == y[i][n % 8];
        }
      }
    } else {
      var j :| 0 <= j < 8 && a[j] != b[j];
      BitOf(x, i, j);
      BitOf(y, i, j);
      assert Bit(x, 8 * i + j) != Bit(y, 8 * i + j);
    }
  }

  /** The address with all bits behind the first top ones cleared. */
  ghost function Masked(address: Block, top: nat): (r: Block)
  {
    seq(16, i requires 0 <= i < 16 => seq(8, j requires 0 <= j < 8 => address[i][j] && 8 * i + j < top))
  }

  /** The i-th of four 32-bit masks that keep the first top bits of an address. */
  ghost predicate IsMask(m: seq<bool>, i: nat, top: nat)
  {
    |m| == 32 && forall j :: 0 <= j < 32 ==> m[j] == (32 * i + j < top)
  }

  /** Clears the bits of an address in place, one 32-bit word at a time. */
  method Mask(bytes: array<Byte>, top: nat) returns (ok: bool)
    requires bytes.Length == 16
    modifies bytes
    ensures ok <==> top <= 128
    ensures bytes[..] == if ok then Masked(old(bytes[..]), top) else old(bytes[..])
  {
    if top > 128 {
      return false;
    }
    ghost var before: Block := bytes[..];
    var m := seq(4, _ => seq(32, _ => true));
    var quot, rem := top / 32, top % 32;
    if quot < 4 {
      m := m[quot := seq(32, j => j < rem)];
    }
    var w := quot + 1;
    while w < 4
      invariant w > quot && |m| == 4 && forall k :: 0 <= k < 4 && k < w ==> IsMask(m[k], k, top)
    {
      m := m[w := seq(32, _ => false)];
      w := w + 1;
    }
    for i := 0 to 4
      invariant forall k :: 0 <= k < 4 * i ==> bytes[k] == Masked(before, top)[k]
      invariant forall k :: 4 * i <= k < 16 ==> bytes[k] == before[k]
    {
      for t := 0 to 4
        invariant forall k :: 0 <= k < 4 * i + t ==> bytes[k] == Masked(before, top)[k]
        invariant forall k :: 4 * i + t <= k < 16 ==> bytes[k] == before[k]
      {
        var part := m[i][8 * t..8 * t + 8];
        assert IsMask(m[i], i, top);
        bytes[4 * i + t] := And(bytes[4 * i + t], part);
      }
    }
    assert bytes[..] == Masked(before, top);
    return true;
  }

  /** Masked addresses are the same if and only if their unmasked bits are. */
  lemma MaskedAgree(a: Block, b: Block, top: nat)
    requires top <= 128
    ensures Masked(a, top) == Masked(b, top) <==> Agree(a, b, top)
  {
    var p, q := Masked(a, top), Masked(b, top);
    if p == q {
      forall k | 0 <= k < top ensures Bit(a, k) == Bit(b, k) {
        assert p[k / 8][k % 8] == Bit(a, k) && q[k / 8][k % 8] == Bit(b, k);
      }
    } else {
      var i :| 0 <= i < 16 && p[i] != q[i];
      var j :| 0 <= j < 8 && p[i][j] != q[i][j];
      BitOf(a, i, j);
      BitOf(b, i, j);
      assert Bit(a, 8 * i + j) != Bit(b, 8 * i + j);
    }
  }

  /** Two addresses of one family are in the same subnet of any size if and only
      if their pseudonyms are. */
  lemma SubnetsPreserved(aes: (Block, Block) -> Block, key: (Block, Block), a: Block, b: Block, top: nat)
    requires IsV4(a) == IsV4(b) && top <= 128
    ensures Masked(Pseudonym(aes, key, a), top) == Masked(Pseudonym(aes, key, b), top)
        <==> Masked(a, top) == Masked(b, top)
  {
    hide Masked, Agree, IsV4, Encrypted;
    MaskedAgree(a, b, top);
    MaskedAgree(Pseudonym(aes, key, a), Pseudonym(aes, key, b), top);
    PseudonymsAgree(aes, key, a, b, top);
  }
}
