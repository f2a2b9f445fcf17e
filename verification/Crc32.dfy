/** The CRC-32 of section 3.2.9 of IEEE 802.3 (reflected polynomial) as the two ends of the
    update compute it: bit by bit in the master, through a 256-entry table in the target.

    The reference is the bit-serial register fed with the bits of the message in the order of
    transmission. The central results: both programs compute it; it is linear, which gives the
    checksum algebra; two images whose bits differ only inside a window of at most 32 bits never
    share a checksum, and a window of 33 bits is already too wide. */
module Crc32 {

  import opened Crc32Table

  // ---------------------------------------------------------------------------------------------
  // Machine words and their bits. The operations have names so that proofs about registers can
  // treat them as symbols.

  predicate Low(w: bv32) {
    w & 1 == 1
  }

  function Half(w: bv32): bv32 {
    w >> 1
  }

  function Widen(b: bv8): bv32 {
    b as bv32
  }

  function XorWord(v: bv32, w: bv32): bv32 {
    v ^ w
  }

  predicate BitAt(w: bv32, i: nat)
    requires i < 32
    decreases i
  {
    if i == 0 then Low(w) else BitAt(Half(w), i - 1)
  }

  lemma LowXor(a: bv32, b: bv32)
    ensures Low(XorWord(a, b)) == (Low(a) != Low(b))
  {}

  lemma HalfXor(a: bv32, b: bv32)
    ensures Half(XorWord(a, b)) == XorWord(Half(a), Half(b))
  {}

  lemma {:induction false} BitOfXor(a: bv32, b: bv32, i: nat)
    requires i < 32
    ensures BitAt(XorWord(a, b), i) == (BitAt(a, i) != BitAt(b, i))
    decreases i
  {
    hide Low, Half, XorWord;
    if i == 0 {
      LowXor(a, b);
    } else {
      HalfXor(a, b);
      BitOfXor(Half(a), Half(b), i - 1);
    }
  }

  function Half8(w: bv32): bv32 {
    Half(Half(Half(Half(Half(Half(Half(Half(w))))))))
  }

  lemma TwoHalves(w: bv32, i: nat)
    requires i < 30
    ensures BitAt(w, i + 2) == BitAt(Half(Half(w)), i)
  {}

  lemma EightHalves(w: bv32, i: nat)
    requires i < 24
    ensures BitAt(w, i + 8) == BitAt(Half8(w), i)
  {
    hide Low, Half, BitAt;
    var w2 := Half(Half(w));
    var w4 := Half(Half(w2));
    var w6 := Half(Half(w4));
    TwoHalves(w, i + 6);
    TwoHalves(w2, i + 4);
    TwoHalves(w4, i + 2);
    TwoHalves(w6, i);
  }

  function DropByte(w: bv32): bv32 {
    w >> 8
  }

  lemma SkipByte(w: bv32, i: nat)
    requires i < 24
    ensures BitAt(w, i + 8) == BitAt(DropByte(w), i)
  {
    assert Half8(w) == DropByte(w);
    EightHalves(w, i);
  }

  lemma SeventhBit(w: bv32)
    ensures BitAt(w, 7) == (w & 0x80 != 0)
  {}

  lemma TopBitAsByte(w: bv32)
    ensures BitAt(w, 31) == BitAt(DropByte(DropByte(DropByte(w))), 7)
  {
    hide BitAt, DropByte;
    SkipByte(w, 23);
    SkipByte(DropByte(w), 15);
    SkipByte(DropByte(DropByte(w)), 7);
  }

  lemma TopBit(w: bv32)
    ensures BitAt(w, 31) == (w & 0x8000_0000 != 0)
  {
    hide BitAt;
    TopBitAsByte(w);
    SeventhBit(DropByte(DropByte(DropByte(w))));
  }

  lemma {:induction false} BitOfZero(i: nat)
    requires i < 32
    ensures !BitAt(0, i)
  {
    if i > 0 {
      assert Half(0) == 0 as bv32;
      BitOfZero(i - 1);
    }
  }

  lemma HighBitsOfByte(b: bv8, i: nat)
    requires 8 <= i < 32
    ensures !BitAt(Widen(b), i)
  {
    SkipByte(Widen(b), i - 8);
    assert DropByte(Widen(b)) == 0;
    BitOfZero(i - 8);
  }

  // ---------------------------------------------------------------------------------------------
  // The reference register: 32 bits, bit 0 first.

  type Bits32 = s: seq<bool> | |s| == 32 witness
    [false, false, false, false, false, false, false, false, false, false, false, false, false, false, false, false,
     false, false, false, false, false, false, false, false, false, false, false, false, false, false, false, false]

  function BitsOfWord(w: bv32): Bits32 {
    seq(32, i requires 0 <= i < 32 => BitAt(w, i))
  }

  const POLY_BITS: Bits32 := BitsOfWord(POLY)
  lemma PolyTop()
    ensures POLY_BITS[31]
  {
    hide BitAt;
    TopBit(POLY);
  }

  const ONES: Bits32 := BitsOfWord(0xFFFF_FFFF)
  const ZERO: Bits32 := Plus(ONES, ONES)

  function Plus(c: Bits32, d: Bits32): (r: Bits32)
    ensures forall i :: 0 <= i < 32 ==> r[i] == (c[i] != d[i])
  {
    seq(32, i requires 0 <= i < 32 => c[i] != d[i])
  }

  /** One division step: shift towards bit 0 and subtract the polynomial when a one falls out. */
  function Step(c: Bits32): (r: Bits32)
    ensures forall i :: 0 <= i < 31 ==> r[i] == (c[i + 1] != (c[0] && POLY_BITS[i]))
    ensures r[31] == c[0]
  {
    PolyTop();
    seq(32, i requires 0 <= i < 32 => (i < 31 && c[i + 1]) != (c[0] && POLY_BITS[i]))
  }

  function Steps(c: Bits32, n: nat): Bits32
    decreases n
  {
    if n == 0 then c else Steps(Step(c), n - 1)
  }

  /** Up to 32 bits as the low end of a register. */
  function Word(bits: seq<bool>): (r: Bits32)
    requires |bits| <= 32
    ensures forall i :: 0 <= i < 32 ==> r[i] == (i < |bits| && bits[i])
  {
    seq(32, i => 0 <= i < |bits| && bits[i])
  }

  /** The register after the bits of a message went in one by one. */
  function Fold(c: Bits32, bits: seq<bool>): Bits32
    decreases |bits|
  {
    if bits == [] then c else Fold(Step(Plus(c, Word(bits[..1]))), bits[1..])
  }

  /** The bits of a byte in the order of transmission: least significant first. */
  function BitsOfByte(b: bv8): (bits: seq<bool>)
    ensures |bits| == 8
  {
    seq(8, i requires 0 <= i < 8 => BitAt(Widen(b), i))
  }

  function BitsOf(data: seq<bv8>): (bits: seq<bool>)
    ensures |bits| == 8 * |data|
  {
    if data == [] then [] else BitsOfByte(data[0]) + BitsOf(data[1..])
  }

  function Checksum(data: seq<bv8>): Bits32 {
    Plus(Fold(ONES, BitsOf(data)), ONES)
  }

  // ---------------------------------------------------------------------------------------------
  // The algebra of the register.

  lemma PlusCancels(a: Bits32, b: Bits32, c: Bits32)
    requires Plus(a, c) == Plus(b, c)
    ensures a == b
  {}

  lemma PlusZero(a: Bits32)
    ensures Plus(a, ZERO) == a && Plus(ZERO, a) == a && Plus(a, a) == ZERO
  {}

  lemma StepLinear(a: Bits32, b: Bits32)
    ensures Step(Plus(a, b)) == Plus(Step(a), Step(b))
  {}

  lemma StepInjective(a: Bits32, b: Bits32)
    requires Step(a) == Step(b)
    ensures a == b
  {
    assert Step(a)[31] == Step(b)[31];
    forall j | 0 < j < 32
      ensures a[j] == b[j]
    {
      assert Step(a)[j - 1] == Step(b)[j - 1];
    }
  }

  lemma {:induction false} StepsLinear(a: Bits32, b: Bits32, n: nat)
    ensures Steps(Plus(a, b), n) == Plus(Steps(a, n), Steps(b, n))
    decreases n
  {
    if n > 0 {
      StepLinear(a, b);
      StepsLinear(Step(a), Step(b), n - 1);
    }
  }

  lemma {:induction false} StepsInjective(a: Bits32, b: Bits32, n: nat)
    requires Steps(a, n) == Steps(b, n)
    ensures a == b
    decreases n
  {
    if n > 0 {
      StepsInjective(Step(a), Step(b), n - 1);
      StepInjective(a, b);
    }
  }

  /** Feeding up to 32 bits one by one is adding their word at once and stepping. */
  lemma {:induction false} FoldIsSteps(c: Bits32, bits: seq<bool>)
    requires |bits| <= 32
    ensures Fold(c, bits) == Steps(Plus(c, Word(bits)), |bits|)
    decreases |bits|
  {
    if bits == [] {
      assert Plus(c, Word(bits)) == c;
    } else {
      FoldIsSteps(Step(Plus(c, Word(bits[..1]))), bits[1..]);
      FirstBitFolded(c, bits);
    }
  }

  lemma FirstBitFolded(c: Bits32, bits: seq<bool>)
    requires 1 <= |bits| <= 32
    ensures Step(Plus(c, Word(bits))) == Plus(Step(Plus(c, Word(bits[..1]))), Word(bits[1..]))
  {}

  lemma {:induction false} FoldConcat(c: Bits32, s: seq<bool>, t: seq<bool>)
    ensures Fold(c, s + t) == Fold(Fold(c, s), t)
    decreases |s|
  {
    if s == [] {
      assert s + t == t;
    } else {
      assert (s + t)[..1] == s[..1] && (s + t)[1..] == s[1..] + t;
      FoldConcat(Step(Plus(c, Word(s[..1]))), s[1..], t);
    }
  }

  lemma {:induction false} BitsOfConcat(s: seq<bv8>, t: seq<bv8>)
    ensures BitsOf(s + t) == BitsOf(s) + BitsOf(t)
    decreases |s|
  {
    if s == [] {
      assert s + t == t;
    } else {
      assert (s + t)[1..] == s[1..] + t;
      BitsOfConcat(s[1..], t);
    }
  }

  /** Splitting the image into chunks does not matter: the register folds over any split. */
  lemma ChecksumOfChunks(c: Bits32, s: seq<bv8>, t: seq<bv8>)
    ensures Fold(c, BitsOf(s + t)) == Fold(Fold(c, BitsOf(s)), BitsOf(t))
  {
    BitsOfConcat(s, t);
    FoldConcat(c, BitsOf(s), BitsOf(t));
  }

  /** The bitwise exclusive or of two messages. */
  function XorBits(a: seq<bool>, b: seq<bool>): (r: seq<bool>)
    requires |a| == |b|
    ensures |r| == |a| && forall i :: 0 <= i < |a| ==> r[i] == (a[i] != b[i])
  {
    seq(|a|, i requires 0 <= i < |a| => a[i] != b[i])
  }

  lemma {:induction false} FoldLinear(c: Bits32, d: Bits32, a: seq<bool>, b: seq<bool>)
    requires |a| == |b|
    ensures Fold(Plus(c, d), XorBits(a, b)) == Plus(Fold(c, a), Fold(d, b))
    decreases |a|
  {
    if a != [] {
      var x := XorBits(a, b);
      var p, q := Plus(c, Word(a[..1])), Plus(d, Word(b[..1]));
      assert Plus(Plus(c, d), Word(x[..1])) == Plus(p, q);
      StepLinear(p, q);
      assert x[1..] == XorBits(a[1..], b[1..]);
      FoldLinear(Step(p), Step(q), a[1..], b[1..]);
    }
  }

  function Xor(a: seq<bv8>, b: seq<bv8>): (r: seq<bv8>)
    requires |a| == |b|
    ensures |r| == |a|
  {
    if a == [] then [] else [XorByte(a[0], b[0])] + Xor(a[1..], b[1..])
  }

  function XorByte(a: bv8, b: bv8): bv8 {
    a ^ b
  }

  lemma XorByteWord(a: bv8, b: bv8)
    ensures Widen(XorByte(a, b)) == XorWord(Widen(a), Widen(b))
  {}

  lemma BitsOfXorByte(a: bv8, b: bv8)
    ensures BitsOfByte(XorByte(a, b)) == XorBits(BitsOfByte(a), BitsOfByte(b))
  {
    hide XorByte, XorWord, BitAt;
    XorByteWord(a, b);
    forall i | 0 <= i < 8
      ensures BitsOfByte(XorByte(a, b))[i] == (BitsOfByte(a)[i] != BitsOfByte(b)[i])
    {
      BitOfXor(Widen(a), Widen(b), i);
    }
  }

  lemma {:induction false} BitsOfXor(a: seq<bv8>, b: seq<bv8>)
    requires |a| == |b|
    ensures BitsOf(Xor(a, b)) == XorBits(BitsOf(a), BitsOf(b))
    decreases |a|
  {
    if a != [] {
      hide XorByte, BitsOfByte;
      BitsOfXorByte(a[0], b[0]);
      BitsOfXor(a[1..], b[1..]);
      assert Xor(a, b)[1..] == Xor(a[1..], b[1..]);
      XorBitsConcat(BitsOfByte(a[0]), BitsOf(a[1..]), BitsOfByte(b[0]), BitsOf(b[1..]));
    }
  }

  lemma XorBitsConcat(s: seq<bool>, t: seq<bool>, u: seq<bool>, v: seq<bool>)
    requires |s| == |u| && |t| == |v|
    ensures XorBits(s + t, u + v) == XorBits(s, u) + XorBits(t, v)
  {}

  /** For three images of one length the checksum of their sum is the sum of their checksums. */
  lemma ChecksumOfThree(a: seq<bv8>, b: seq<bv8>, c: seq<bv8>)
    requires |a| == |b| == |c|
    ensures Checksum(Xor(Xor(a, b), c)) == Plus(Plus(Checksum(a), Checksum(b)), Checksum(c))
  {
    BitsOfXor(a, b);
    BitsOfXor(Xor(a, b), c);
    var s, t, u := BitsOf(a), BitsOf(b), BitsOf(c);
    assert Plus(ZERO, ONES) == ONES;
    FoldLinear(ONES, ONES, s, t);
    FoldLinear(ZERO, ONES, XorBits(s, t), u);
  }

  // ---------------------------------------------------------------------------------------------
  // Burst detection.

  lemma {:induction false} FoldInjective(c: Bits32, d: Bits32, bits: seq<bool>)
    requires Fold(c, bits) == Fold(d, bits)
    ensures c == d
    decreases |bits|
  {
    if bits != [] {
      var w := Word(bits[..1]);
      FoldInjective(Step(Plus(c, w)), Step(Plus(d, w)), bits[1..]);
      StepInjective(Plus(c, w), Plus(d, w));
      PlusCancels(c, d, w);
    }
  }

  lemma ByteFromBits(a: bv8, b: bv8)
    requires BitAt(Widen(a), 0) == BitAt(Widen(b), 0) && BitAt(Widen(a), 1) == BitAt(Widen(b), 1)
    requires BitAt(Widen(a), 2) == BitAt(Widen(b), 2) && BitAt(Widen(a), 3) == BitAt(Widen(b), 3)
    requires BitAt(Widen(a), 4) == BitAt(Widen(b), 4) && BitAt(Widen(a), 5) == BitAt(Widen(b), 5)
    requires BitAt(Widen(a), 6) == BitAt(Widen(b), 6) && BitAt(Widen(a), 7) == BitAt(Widen(b), 7)
    ensures a == b
  {}

  lemma ByteInjective(a: bv8, b: bv8)
    requires BitsOfByte(a) == BitsOfByte(b)
    ensures a == b
  {
    hide BitAt;
    var s, t := BitsOfByte(a), BitsOfByte(b);
    assert s[0] == t[0] && s[1] == t[1] && s[2] == t[2] && s[3] == t[3];
    assert s[4] == t[4] && s[5] == t[5] && s[6] == t[6] && s[7] == t[7];
    ByteFromBits(a, b);
  }

  lemma {:induction false} BitsInjective(a: seq<bv8>, b: seq<bv8>)
    requires |a| == |b|
    requires BitsOf(a) == BitsOf(b)
    ensures a == b
    decreases |a|
  {
    if a != [] {
      assert BitsOf(a)[..8] == BitsOfByte(a[0]) && BitsOf(b)[..8] == BitsOfByte(b[0]);
      assert BitsOf(a)[8..] == BitsOf(a[1..]) && BitsOf(b)[8..] == BitsOf(b[1..]);
      ByteInjective(a[0], b[0]);
      BitsInjective(a[1..], b[1..]);
    }
  }

  /** Equal outer parts and equal final states force equal windows of at most 32 bits. */
  lemma WindowDetermined(c: Bits32, pre: seq<bool>, s: seq<bool>, t: seq<bool>, post: seq<bool>)
    requires |s| == |t| <= 32
    requires Fold(c, pre + (s + post)) == Fold(c, pre + (t + post))
    ensures s == t
  {
    var mid := Fold(c, pre);
    FoldConcat(c, pre, s + post);
    FoldConcat(c, pre, t + post);
    FoldConcat(mid, s, post);
    FoldConcat(mid, t, post);
    FoldInjective(Fold(mid, s), Fold(mid, t), post);
    FoldIsSteps(mid, s);
    FoldIsSteps(mid, t);
    StepsInjective(Plus(mid, Word(s)), Plus(mid, Word(t)), |s|);
    forall i | 0 <= i < |s|
      ensures s[i] == t[i]
    {
      assert Plus(mid, Word(s))[i] == Plus(mid, Word(t))[i];
    }
  }

  lemma OuterPartsEqual(s: seq<bool>, t: seq<bool>, start: nat, end: nat)
    requires |s| == |t| && start <= end <= |s|
    requires forall i :: 0 <= i < |s| && s[i] != t[i] ==> start <= i < end
    ensures s == s[..start] + (s[start..end] + s[end..])
    ensures t == s[..start] + (t[start..end] + s[end..])
  {}

  /** Two images of equal length that differ, and whose transmitted bits differ only inside a
      window of at most 32 bits, have different checksums. */
  lemma BurstDetected(a: seq<bv8>, b: seq<bv8>, start: nat, width: nat)
    requires |a| == |b| && a != b
    requires width <= 32 && start + width <= 8 * |a|
    requires forall i :: 0 <= i < 8 * |a| && BitsOf(a)[i] != BitsOf(b)[i] ==> start <= i < start + width
    ensures Checksum(a) != Checksum(b)
  {
    if Checksum(a) == Checksum(b) {
      hide BitsOfWord, BitsOf, Plus, Fold;
      var s, t, end := BitsOf(a), BitsOf(b), start + width;
      PlusCancels(Fold(ONES, s), Fold(ONES, t), ONES);
      OuterPartsEqual(s, t, start, end);
      WindowDetermined(ONES, s[..start], s[start..end], t[start..end], s[end..]);
      BitsInjective(a, b);
    }
  }

  /** The generator polynomial itself, as a message of 33 bits. */
  const GENERATOR: seq<bool> := [true] + POLY_BITS

  lemma GeneratorFoldsToZero()
    ensures Fold(ZERO, GENERATOR) == ZERO
  {
    hide BitsOfWord, Steps;
    PolyTop();
    var one := Plus(ZERO, Word(GENERATOR[..1]));
    assert one[0] && forall i :: 1 <= i < 32 ==> !one[i];
    assert Step(one) == POLY_BITS;
    assert GENERATOR[1..] == POLY_BITS;
    FoldIsSteps(POLY_BITS, POLY_BITS);
    assert Plus(POLY_BITS, Word(POLY_BITS)) == ZERO;
    ZeroStays(32);
  }

  lemma {:induction false} ZeroStays(n: nat)
    ensures Steps(ZERO, n) == ZERO
  {
    if n > 0 {
      assert Step(ZERO) == ZERO;
      ZeroStays(n - 1);
    }
  }

  /** Adding the generator to 33 bits does not change the register. */
  lemma GeneratorInvisible(c: Bits32, bits: seq<bool>)
    requires |bits| == 33
    ensures Fold(c, XorBits(bits, GENERATOR)) == Fold(c, bits)
  {
    hide BitsOfWord, Fold, Plus;
    FoldLinear(c, ZERO, bits, GENERATOR);
    GeneratorFoldsToZero();
    PlusZero(c);
    PlusZero(Fold(c, bits));
  }

  lemma FoldMiddle(c: Bits32, pre: seq<bool>, mid: seq<bool>, post: seq<bool>)
    ensures Fold(c, pre + mid + post) == Fold(Fold(Fold(c, pre), mid), post)
  {
    hide Fold;
    FoldConcat(c, pre + mid, post);
    FoldConcat(c, pre, mid);
  }

  /** One bit more than a detected burst: two different images whose bits differ exactly by the
      33-bit generator, at any position, share their checksum. So 32 cannot be raised. */
  lemma GeneratorBurstMissed(a: seq<bv8>, b: seq<bv8>, at: nat)
    requires |a| == |b| && at + 33 <= 8 * |a|
    requires BitsOf(b) == BitsOf(a)[..at] + XorBits(BitsOf(a)[at..at + 33], GENERATOR) + BitsOf(a)[at + 33..]
    ensures a != b && Checksum(a) == Checksum(b)
  {
    hide BitsOfWord, BitsOf, Plus, Fold;
    var s := BitsOf(a);
    var pre, mid, post := s[..at], s[at..at + 33], s[at + 33..];
    assert BitsOf(b)[at] == (s[at] != GENERATOR[0]);
    assert s == pre + mid + post;
    hide XorBits;
    FoldMiddle(ONES, pre, mid, post);
    FoldMiddle(ONES, pre, XorBits(mid, GENERATOR), post);
    GeneratorInvisible(Fold(ONES, pre), mid);
  }

  lemma LowBits(w: bv32)
    ensures BitAt(w, 0) == (w & 1 != 0) && BitAt(w, 1) == (w & 2 != 0)
    ensures BitAt(w, 2) == (w & 4 != 0) && BitAt(w, 3) == (w & 8 != 0)
  {}

  lemma HighNibble(w: bv32)
    ensures BitAt(w, 4) == (w & 16 != 0) && BitAt(w, 5) == (w & 32 != 0)
    ensures BitAt(w, 6) == (w & 64 != 0) && BitAt(w, 7) == (w & 128 != 0)
  {
    hide Low, Half, BitAt;
    var u := Half(Half(w));
    var v := Half(Half(u));
    LowBits(v);
    TwoHalves(w, 2);
    TwoHalves(w, 3);
    TwoHalves(w, 4);
    TwoHalves(w, 5);
    TwoHalves(u, 0);
    TwoHalves(u, 1);
    TwoHalves(u, 2);
    TwoHalves(u, 3);
    NibbleMasks(w);
  }

  lemma NibbleMasks(w: bv32)
    ensures var v := Half(Half(Half(Half(w))));
            && (v & 1 != 0) == (w & 16 != 0) && (v & 2 != 0) == (w & 32 != 0)
            && (v & 4 != 0) == (w & 64 != 0) && (v & 8 != 0) == (w & 128 != 0)
  {}

  /** The low eight bits of a word, by their masks. */
  function Octet(w: bv32): (bits: seq<bool>)
    ensures |bits| == 8
  {
    [w & 1 != 0, w & 2 != 0, w & 4 != 0, w & 8 != 0, w & 16 != 0, w & 32 != 0, w & 64 != 0, w & 128 != 0]
  }

  lemma OctetBits(w: bv32)
    ensures forall i :: 0 <= i < 8 ==> Octet(w)[i] == BitAt(w, i)
  {
    hide BitAt;
    LowBits(w);
    HighNibble(w);
  }

  lemma ByteOctet(b: bv8)
    ensures BitsOfByte(b) == Octet(Widen(b))
  {
    hide BitAt, Widen;
    OctetBits(Widen(b));
  }

  lemma WordOctets(w: bv32)
    ensures BitsOfWord(w) ==
            Octet(w) + Octet(DropByte(w)) + Octet(DropByte(DropByte(w))) + Octet(DropByte(DropByte(DropByte(w))))
  {
    hide BitAt, DropByte;
    var w1 := DropByte(w);
    var w2 := DropByte(w1);
    var w3 := DropByte(w2);
    OctetBits(w);
    OctetBits(w1);
    OctetBits(w2);
    OctetBits(w3);
    hide Octet;
    var bits := Octet(w) + Octet(w1) + Octet(w2) + Octet(w3);
    forall i | 0 <= i < 32
      ensures BitAt(w, i) == bits[i]
    {
      if 8 <= i {
        SkipByte(w, i - 8);
      }
      if 16 <= i {
        SkipByte(w1, i - 16);
      }
      if 24 <= i {
        SkipByte(w2, i - 24);
      }
    }
  }

  /** The generator spread over five bytes. */
  const MASK: seq<bv8> := [0x41, 0x06, 0x71, 0xDB, 0x01]

  lemma MaskBits()
    ensures BitsOf(MASK)[..33] == GENERATOR
    ensures forall i :: 33 <= i < 40 ==> !BitsOf(MASK)[i]
  {
    hide BitsOfByte, BitsOfWord;
    ByteOctet(0x41);
    ByteOctet(0x06);
    ByteOctet(0x71);
    ByteOctet(0xDB);
    ByteOctet(0x01);
    BitsOfMask();
    WordOctets(POLY);
    assert DropByte(POLY) == 0x00ED_B883 && DropByte(0x00ED_B883) == 0xEDB8 && DropByte(0xEDB8) == 0xED;
    hide DropByte;
  }

  lemma BitsOfMask()
    ensures BitsOf(MASK) ==
            BitsOfByte(0x41) + BitsOfByte(0x06) + BitsOfByte(0x71) + BitsOfByte(0xDB) + BitsOfByte(0x01)
  {
    hide BitsOfByte;
    assert MASK[1..] == [0x06, 0x71, 0xDB, 0x01] && MASK[1..][1..] == [0x71, 0xDB, 0x01];
    assert MASK[1..][1..][1..] == [0xDB, 0x01] && MASK[1..][1..][1..][1..] == [0x01];
    assert BitsOf([0x01]) == BitsOfByte(0x01) + [];
    assert BitsOf([0xDB, 0x01]) == BitsOfByte(0xDB) + BitsOf([0x01]);
    assert BitsOf([0x71, 0xDB, 0x01]) == BitsOfByte(0x71) + BitsOf([0xDB, 0x01]);
    assert BitsOf([0x06, 0x71, 0xDB, 0x01]) == BitsOfByte(0x06) + BitsOf([0x71, 0xDB, 0x01]);
  }

  /** For one: any image with the mask added to five of its bytes is another image with the same
      checksum, although the two differ in only 33 consecutive bits. */
  lemma BurstOf33Collides(a: seq<bv8>, k: nat)
    requires k + 5 <= |a|
    ensures var b := a[..k] + Xor(a[k..k + 5], MASK) + a[k + 5..];
            && |b| == |a| && b != a && Checksum(b) == Checksum(a)
            && forall i :: 0 <= i < 8 * |a| && BitsOf(b)[i] != BitsOf(a)[i] ==> 8 * k <= i < 8 * k + 33
  {
    hide BitsOfByte, BitsOf, Checksum, Xor;
    var mid := a[k..k + 5];
    var b := a[..k] + Xor(mid, MASK) + a[k + 5..];
    assert a == a[..k] + mid + a[k + 5..];
    BitsOfThree(a[..k], mid, a[k + 5..]);
    BitsOfThree(a[..k], Xor(mid, MASK), a[k + 5..]);
    BitsOfXor(mid, MASK);
    MaskBits();
    MaskedBits(BitsOf(a[..k]), BitsOf(mid), BitsOf(MASK), BitsOf(a[k + 5..]));
    GeneratorBurstMissed(a, b, 8 * k);
  }

  lemma BitsOfThree(s: seq<bv8>, t: seq<bv8>, u: seq<bv8>)
    ensures BitsOf(s + t + u) == BitsOf(s) + BitsOf(t) + BitsOf(u)
  {
    hide BitsOf;
    BitsOfConcat(s + t, u);
    BitsOfConcat(s, t);
  }

  lemma MaskedBits(pre: seq<bool>, mid: seq<bool>, mask: seq<bool>, post: seq<bool>)
    requires |mid| == |mask| == 40 && mask[..33] == GENERATOR && forall i :: 33 <= i < 40 ==> !mask[i]
    ensures var s, at := pre + mid + post, |pre|;
            pre + XorBits(mid, mask) + post == s[..at] + XorBits(s[at..at + 33], GENERATOR) + s[at + 33..]
  {
    hide BitsOfWord;
    var s, at := pre + mid + post, |pre|;
    var x := XorBits(mid, mask);
    assert s[at..at + 33] == mid[..33] && s[at + 33..] == mid[33..] + post;
    assert x[..33] == XorBits(mid[..33], GENERATOR) by {
      assert forall i :: 0 <= i < 33 ==> mask[i] == mask[..33][i];
    }
    assert x[33..] == mid[33..];
    assert x == x[..33] + x[33..];
  }

  // ---------------------------------------------------------------------------------------------
  // Machine words compute the reference register.

  function StepWord(w: bv32): bv32 {
    if Low(w) then XorWord(Half(w), POLY) else Half(w)
  }

  lemma StepWordCorrect(w: bv32)
    ensures BitsOfWord(StepWord(w)) == Step(BitsOfWord(w))
  {
    HalfTop(w);
    hide Low, Half, XorWord;
    forall i | 0 <= i < 32
      ensures BitAt(StepWord(w), i) == Step(BitsOfWord(w))[i]
    {
      BitOfXor(Half(w), POLY, i);
      TopBit(POLY);
    }
  }

  lemma HalfTop(w: bv32)
    ensures !BitAt(Half(w), 31)
    ensures BitAt(POLY, 31)
  {
    hide BitAt;
    TopBit(Half(w));
    TopBit(POLY);
  }

  lemma WordPlus(v: bv32, w: bv32)
    ensures BitsOfWord(XorWord(v, w)) == Plus(BitsOfWord(v), BitsOfWord(w))
  {
    hide BitAt, XorWord;
    forall i | 0 <= i < 32
      ensures BitAt(XorWord(v, w), i) == (BitAt(v, i) != BitAt(w, i))
    {
      BitOfXor(v, w, i);
    }
  }

  lemma ByteWord(b: bv8)
    ensures BitsOfWord(Widen(b)) == Word(BitsOfByte(b))
  {
    hide BitAt;
    forall i | 8 <= i < 32
      ensures !BitAt(Widen(b), i)
    {
      HighBitsOfByte(b, i);
    }
  }

  lemma NotIsXor(w: bv32)
    ensures !w == XorWord(w, 0xFFFF_FFFF)
  {}

  lemma WordComplement(w: bv32)
    ensures BitsOfWord(!w) == Plus(BitsOfWord(w), ONES)
  {
    NotIsXor(w);
    WordPlus(w, 0xFFFF_FFFF);
  }

  // ---------------------------------------------------------------------------------------------
  // The master's program: two nested loops.

  method CalculateChunkCrc32(data: seq<bv8>) returns (checksum: bv32)
    ensures BitsOfWord(checksum) == Checksum(data)
  {
    hide BitsOfWord, BitsOfByte, Plus, Step;
    var crc: bv32 := 0xFFFF_FFFF;
    var k := 0;
    assert data[0..] == data;
    while k < |data|
      invariant 0 <= k <= |data|
      invariant Fold(BitsOfWord(crc), BitsOf(data[k..])) == Fold(ONES, BitsOf(data))
    {
      assert data[k..][1..] == data[k + 1..];
      FoldConcat(BitsOfWord(crc), BitsOfByte(data[k]), BitsOf(data[k + 1..]));
      FoldOfByte(crc, data[k]);
      crc := crc ^ Widen(data[k]);
      crc := EightBits(crc);
      k := k + 1;
    }
    WordComplement(crc);
    checksum := !crc;
  }

  /** The inner loop. */
  method EightBits(start: bv32) returns (crc: bv32)
    ensures BitsOfWord(crc) == Steps(BitsOfWord(start), 8)
  {
    hide BitsOfWord, Step;
    crc := start;
    var i := 0;
    while i < 8
      invariant 0 <= i <= 8
      invariant Steps(BitsOfWord(crc), 8 - i) == Steps(BitsOfWord(start), 8)
    {
      crc := OneBit(crc);
      i := i + 1;
    }
  }

  method OneBit(start: bv32) returns (crc: bv32)
    ensures BitsOfWord(crc) == Step(BitsOfWord(start))
  {
    if start & 1 == 1 {
      crc := (start >> 1) ^ POLY;
    } else {
      crc := start >> 1;
    }
    assert crc == StepWord(start);
    StepWordCorrect(start);
  }

  lemma FoldOfByte(c: bv32, b: bv8)
    ensures Fold(BitsOfWord(c), BitsOfByte(b)) == Steps(BitsOfWord(XorWord(c, Widen(b))), 8)
  {
    FoldIsSteps(BitsOfWord(c), BitsOfByte(b));
    ByteWord(b);
    WordPlus(c, Widen(b));
  }

  // ---------------------------------------------------------------------------------------------
  // The target's program: a 256-entry table.

  /** Every entry of the table is eight bit steps of its index. */
  lemma TableIsSteps(x: bv8)
    ensures Table(x) == RawEight(Widen(x))
  {
    hide Table, RawEight;
    EveryEntry(x);
  }

  lemma RawStepIsStep(w: bv32)
    ensures RawStep(w) == StepWord(w)
  {}

  lemma RawEightCorrect(w: bv32)
    ensures BitsOfWord(RawEight(w)) == Steps(BitsOfWord(w), 8)
  {
    hide RawStep, StepWord, BitsOfWord, Step;
    var w2 := RawStep(RawStep(w));
    var w4 := RawStep(RawStep(w2));
    var w6 := RawStep(RawStep(w4));
    RawStepCorrect(w);
    RawStepCorrect(RawStep(w));
    RawStepCorrect(w2);
    RawStepCorrect(RawStep(w2));
    RawStepCorrect(w4);
    RawStepCorrect(RawStep(w4));
    RawStepCorrect(w6);
    RawStepCorrect(RawStep(w6));
  }

  lemma RawStepCorrect(w: bv32)
    ensures BitsOfWord(RawStep(w)) == Step(BitsOfWord(w))
  {
    hide RawStep, StepWord, BitsOfWord, Step;
    RawStepIsStep(w);
    StepWordCorrect(w);
  }

  function Index(c: bv32, b: bv8): bv8 {
    ((c & 0xFF) as bv8) ^ b
  }

  function LiftByte(w: bv32): bv32 {
    w << 8
  }

  lemma WordSplit(c: bv32, b: bv8)
    ensures XorWord(c, Widen(b)) == XorWord(Widen(Index(c, b)), LiftByte(DropByte(c)))
  {}

  lemma EvenSteps(w: bv32)
    requires w & 0xFF == 0
    ensures RawEight(w) == DropByte(w)
  {}

  lemma LiftedByte(c: bv32)
    ensures LiftByte(DropByte(c)) & 0xFF == 0
    ensures DropByte(LiftByte(DropByte(c))) == DropByte(c)
  {}

  lemma EntryBits(x: bv8)
    ensures BitsOfWord(Table(x)) == Steps(BitsOfWord(Widen(x)), 8)
  {
    hide Table, RawEight, BitsOfWord, Widen, Steps;
    TableIsSteps(x);
    RawEightCorrect(Widen(x));
  }

  lemma HighBits(c: bv32)
    ensures BitsOfWord(DropByte(c)) == Steps(BitsOfWord(LiftByte(DropByte(c))), 8)
  {
    hide RawEight, BitsOfWord, LiftByte, DropByte, Steps;
    var h := LiftByte(DropByte(c));
    LiftedByte(c);
    EvenSteps(h);
    RawEightCorrect(h);
  }

  /** One table look-up feeds a whole byte. */
  lemma TableStep(c: bv32, b: bv8)
    ensures BitsOfWord(XorWord(DropByte(c), Table(Index(c, b)))) == Fold(BitsOfWord(c), BitsOfByte(b))
  {
    hide *;
    var x, h := Index(c, b), LiftByte(DropByte(c));
    EntryBits(x);
    HighBits(c);
    WordSplit(c, b);
    WordPlus(Widen(x), h);
    StepsLinear(BitsOfWord(Widen(x)), BitsOfWord(h), 8);
    FoldOfByte(c, b);
    WordPlus(DropByte(c), Table(x));
    PlusCommutes(BitsOfWord(DropByte(c)), BitsOfWord(Table(x)));
  }

  lemma PlusCommutes(c: Bits32, d: Bits32)
    ensures Plus(c, d) == Plus(d, c)
  {}

  /** The target's checksum, continued from a previous value (0 in the update core). */
  method TableCrc32(previous: bv32, buf: seq<bv8>) returns (checksum: bv32)
    ensures BitsOfWord(checksum) == Plus(Fold(Plus(BitsOfWord(previous), ONES), BitsOf(buf)), ONES)
    ensures previous == 0 ==> BitsOfWord(checksum) == Checksum(buf)
  {
    hide BitsOfWord, BitsOfByte, Plus, Table;
    var crc := !previous;
    WordComplement(previous);
    var p := 0;
    assert buf[0..] == buf;
    while p < |buf|
      invariant 0 <= p <= |buf|
      invariant Fold(BitsOfWord(crc), BitsOf(buf[p..])) == Fold(Plus(BitsOfWord(previous), ONES), BitsOf(buf))
    {
      assert buf[p..][1..] == buf[p + 1..];
      FoldConcat(BitsOfWord(crc), BitsOfByte(buf[p]), BitsOf(buf[p + 1..]));
      crc := TableRound(crc, buf[p]);
      p := p + 1;
    }
    WordComplement(crc);
    checksum := !crc;
  }

  method TableRound(crc: bv32, octet: bv8) returns (next: bv32)
    ensures BitsOfWord(next) == Fold(BitsOfWord(crc), BitsOfByte(octet))
  {
    hide *;
    var x := ((crc & 0xFF) as bv8) ^ octet;
    var high := crc >> 8;
    next := high ^ Table(x);
    NamedOperations(crc, octet, high, Table(x));
    TableStep(crc, octet);
  }

  lemma NamedOperations(crc: bv32, octet: bv8, v: bv32, w: bv32)
    ensures ((crc & 0xFF) as bv8) ^ octet == Index(crc, octet)
    ensures crc >> 8 == DropByte(crc)
    ensures v ^ w == XorWord(v, w)
  {}

  /** The checksum the target's program computes is the one the master's program sends, on every image. */
  method ProgramsAgree(data: seq<bv8>) returns (master: bv32, target: bv32)
    ensures master == target && BitsOfWord(master) == Checksum(data)
  {
    hide BitsOfWord;
    master := CalculateChunkCrc32(data);
    target := TableCrc32(0, data);
    WordFromBits(master, target);
  }

  lemma WordFromBits(v: bv32, w: bv32)
    requires BitsOfWord(v) == BitsOfWord(w)
    ensures v == w
  {
    hide BitAt;
    var x := XorWord(v, w);
    forall i | 0 <= i < 32
      ensures !BitAt(x, i)
    {
      BitOfXor(v, w, i);
      assert BitsOfWord(v)[i] == BitsOfWord(w)[i];
    }
    ZeroFromBits(x);
    XorZero(v, w);
  }

  lemma XorZero(v: bv32, w: bv32)
    requires XorWord(v, w) == 0
    ensures v == w
  {}

  lemma LowByteZero(w: bv32)
    requires !BitAt(w, 0) && !BitAt(w, 1) && !BitAt(w, 2) && !BitAt(w, 3)
    requires !BitAt(w, 4) && !BitAt(w, 5) && !BitAt(w, 6) && !BitAt(w, 7)
    ensures w & 0xFF == 0
  {}

  lemma BytesZero(w: bv32)
    requires w & 0xFF == 0 && DropByte(w) & 0xFF == 0 && DropByte(DropByte(w)) & 0xFF == 0
    requires DropByte(DropByte(DropByte(w))) & 0xFF == 0
    ensures w == 0
  {}

  lemma LowByteFromBits(w: bv32)
    requires forall i :: 0 <= i < 8 ==> !BitAt(w, i)
    ensures w & 0xFF == 0
  {
    hide BitAt;
    LowByteZero(w);
  }

  lemma ZeroFromBits(w: bv32)
    requires forall i :: 0 <= i < 32 ==> !BitAt(w, i)
    ensures w == 0
  {
    hide BitAt, DropByte;
    var w1 := DropByte(w);
    var w2 := DropByte(w1);
    var w3 := DropByte(w2);
    forall i | 0 <= i < 8
      ensures !BitAt(w, i) && !BitAt(w1, i) && !BitAt(w2, i) && !BitAt(w3, i)
    {
      SkipByte(w, i);
      SkipByte(w, i + 8);
      SkipByte(w1, i);
      SkipByte(w, i + 16);
      SkipByte(w1, i + 8);
      SkipByte(w2, i);
    }
    LowByteFromBits(w);
    LowByteFromBits(w1);
    LowByteFromBits(w2);
    LowByteFromBits(w3);
    BytesZero(w);
  }
}
