/** The CRC register bit by bit: what one bit, one byte and a burst of changes do to it.
 *
 *  A register is read as its 32 bits, lowest first, so that every step is a step on
 *  sequences of booleans and exclusive or is pointwise. */
module CrcBits {
  import opened Bytes
  import opened Crc

  type Bits = seq<bool>

  function Sum(a: Bits, b: Bits): (r: Bits)
    requires |a| == |b|
    ensures |r| == |a| && forall i :: 0 <= i < |r| ==> r[i] == (a[i] != b[i])
  {
    seq(|a|, i requires 0 <= i < |a| => a[i] != b[i])
  }

  function Zeros(n: nat): (r: Bits)
    ensures |r| == n && forall i :: 0 <= i < n ==> !r[i]
  {
    seq(n, _ => false)
  }

  /** The n lowest bits of a word, lowest first. */
  function BitsOf(x: nat, n: nat): (r: Bits)
    ensures |r| == n
    decreases n
  {
    if n == 0 then [] else [x % 2 == 1] + BitsOf(x / 2, n - 1)
  }

  function Value(bits: Bits): nat {
    if bits == [] then 0 else (if bits[0] then 1 else 0) + 2 * Value(bits[1..])
  }

  /** The bits of a file in the order the register takes them. */
  function FileBits(data: seq<byte>): (bits: Bits)
    ensures |bits| == 8 * |data|
  {
    if data == [] then [] else BitsOf(data[0], 8) + FileBits(data[1..])
  }

  /** The powers of x in the generator polynomial of section 8.1.1.6.2 of ITU-T V.42. */
  predicate Exponent(e: int) {
    || e == 32 || e == 26 || e == 23 || e == 22 || e == 16 || e == 12 || e == 11 || e == 10
    || e == 8 || e == 7 || e == 5 || e == 4 || e == 2 || e == 1 || e == 0
  }

  /** The generator without its leading term: the coefficients of x^31 down to x^0. */
  function Tail(): (r: Bits)
    ensures |r| == 32 && forall i :: 0 <= i < 32 ==> (r[i] <==> Exponent(31 - i))
  {
    seq(32, i requires 0 <= i < 32 => Exponent(31 - i))
  }

  // ------------------------------------------------------------------ words and their bits

  lemma {:induction false} ValueOfBits(x: nat, n: nat)
    requires x < Pow2(n)
    ensures Value(BitsOf(x, n)) == x
    decreases n
  {
    if n > 0 { ValueOfBits(x / 2, n - 1); }
  }

  lemma {:induction false} BitsOfValue(bits: Bits)
    ensures BitsOf(Value(bits), |bits|) == bits && Value(bits) < Pow2(|bits|)
  {
    if bits != [] { BitsOfValue(bits[1..]); }
  }

  lemma {:induction false} XorBits(a: nat, b: nat, n: nat)
    ensures BitsOf(Xor(a, b), n) == Sum(BitsOf(a, n), BitsOf(b, n))
    decreases n
  {
    if n > 0 {
      XorBits(a / 2, b / 2, n - 1);
      assert Xor(a, b) / 2 == Xor(a / 2, b / 2);
    }
  }

  lemma {:induction false} XorFits(a: nat, b: nat, n: nat)
    requires a < Pow2(n) && b < Pow2(n)
    ensures Xor(a, b) < Pow2(n)
    decreases n
  {
    if n > 0 { XorFits(a / 2, b / 2, n - 1); }
  }

  /** A word of n bits has no bit beyond. */
  lemma {:induction false} BitsBeyond(x: nat, n: nat, more: nat)
    requires x < Pow2(n)
    ensures BitsOf(x, n + more) == BitsOf(x, n) + Zeros(more)
    decreases n + more
  {
    if n > 0 {
      BitsBeyond(x / 2, n - 1, more);
    } else if more > 0 {
      BitsBeyond(0, 0, more - 1);
    }
  }

  lemma DropFirst(a: Bits)
    requires a != []
    ensures (a + Zeros(1))[1..] == a[1..] + [false]
  {
  }

  lemma HalfBits(x: nat)
    requires x < Pow2(32)
    ensures BitsOf(x / 2, 32) == BitsOf(x, 32)[1..] + [false]
  {
    BitsBeyond(x, 32, 1);
    assert BitsOf(x, 33) == [x % 2 == 1] + BitsOf(x / 2, 32);
    DropFirst(BitsOf(x, 32));
  }

  lemma ThirtyTwo()
    ensures Pow2(32) == 0x1_0000_0000 && Pow2(8) == 0x100
  {
    assert Pow2(8) == 256;
    assert Pow2(16) == 0x1_0000;
    assert Pow2(24) == 0x100_0000;
  }

  lemma SameWord(a: nat, b: nat)
    requires a < Pow2(32) && b < Pow2(32) && BitsOf(a, 32) == BitsOf(b, 32)
    ensures a == b
  {
    ValueOfBits(a, 32);
    ValueOfBits(b, 32);
  }

  lemma ByteBits32(b: byte)
    ensures BitsOf(b, 32) == BitsOf(b, 8) + Zeros(24)
  {
    ThirtyTwo();
    BitsBeyond(b, 8, 24);
  }

  lemma BitStepFits(r: nat)
    requires r < Pow2(32)
    ensures BitStep(r) < Pow2(32)
  {
    ThirtyTwo();
    XorFits(r / 2, POLY, 32);
  }

  /** The register stays a 32-bit word. */
  lemma {:induction false} StepNFits(r: nat, n: nat)
    requires r < Pow2(32)
    ensures StepN(r, n) < Pow2(32)
    decreases n
  {
    if n > 0 {
      BitStepFits(r);
      StepNFits(BitStep(r), n - 1);
    }
  }

  lemma {:induction false} RegisterFits(r: nat, data: seq<byte>)
    requires r < Pow2(32)
    ensures Register(r, data) < Pow2(32)
    decreases |data|
  {
    if data != [] {
      ThirtyTwo();
      XorFits(r, data[0], 32);
      StepNFits(Xor(r, data[0]), 8);
      RegisterFits(ByteStep(r, data[0]), data[1..]);
    }
  }

  lemma CrcFits(data: seq<byte>)
    ensures Crc32(data) < Pow2(32)
  {
    ThirtyTwo();
    RegisterFits(ONES, data);
    XorFits(Register(ONES, data), ONES, 32);
  }

  // ------------------------------------------------------------------ the register on bits

  /** One round of the inner loop. */
  function StepBits(r: Bits): (s: Bits)
    requires |r| == 32
    ensures |s| == 32
  {
    if r[0] then Sum(r[1..] + [false], Tail()) else r[1..] + [false]
  }

  function StepBitsN(r: Bits, n: nat): (s: Bits)
    requires |r| == 32
    ensures |s| == 32
    decreases n
  {
    if n == 0 then r else StepBitsN(StepBits(r), n - 1)
  }

  /** The register fed with single bits. */
  function Feed(r: Bits, bits: Bits): (s: Bits)
    requires |r| == 32
    ensures |s| == 32
    decreases |bits|
  {
    if bits == [] then r else Feed(StepBits([r[0] != bits[0]] + r[1..]), bits[1..])
  }

  lemma ValueFrom(c: Bits, k: nat)
    requires k < |c|
    ensures Value(c[k..]) == (if c[k] then 1 else 0) + 2 * Value(c[k + 1..])
  {
    assert c[k..][0] == c[k] && c[k..][1..] == c[k + 1..];
  }

  lemma NibbleValue(c: Bits, k: nat, low: nat, v: nat)
    requires k + 4 <= |c| && v == Value(c[k + 4..])
    requires low == (if c[k] then 1 else 0) + (if c[k + 1] then 2 else 0)
                    + (if c[k + 2] then 4 else 0) + (if c[k + 3] then 8 else 0)
    ensures Value(c[k..]) == low + 16 * v
  {
    ValueFrom(c, k);
    ValueFrom(c, k + 1);
    ValueFrom(c, k + 2);
    ValueFrom(c, k + 3);
  }

  /** The coefficient of the generator that bit i of `Tail` stands for. */
  function Coefficient(i: nat): nat
    requires i < 32
  {
    if Exponent(31 - i) then 1 else 0
  }

  /** Four of them as a hexadecimal digit, lowest first. */
  function Nibble(k: nat): nat
    requires k + 4 <= 32
  {
    Coefficient(k) + 2 * Coefficient(k + 1) + 4 * Coefficient(k + 2) + 8 * Coefficient(k + 3)
  }

  lemma HighNibbles()
    ensures Nibble(28) == 0xE && Nibble(24) == 0xD && Nibble(20) == 0xB && Nibble(16) == 0x8
  {
  }

  lemma LowNibbles()
    ensures Nibble(12) == 0x8 && Nibble(8) == 0x3 && Nibble(4) == 0x2 && Nibble(0) == 0x0
  {
  }

  lemma NextNibble(c: Bits, k: nat)
    requires c == Tail() && k + 4 <= 32
    ensures Value(c[k..]) == Nibble(k) + 16 * Value(c[k + 4..])
  {
    NibbleValue(c, k, Nibble(k), Value(c[k + 4..]));
  }

  /** Two digits at once, for the value v of what is above them. */
  lemma NextTwo(c: Bits, k: nat, middle: nat, above: nat, low: nat, high: nat, v: nat)
    requires c == Tail() && middle == k + 4 && above == k + 8 <= 32
    requires Value(c[above..]) == v && Nibble(k) == low && Nibble(middle) == high
    ensures Value(c[k..]) == low + 16 * high + 256 * v
  {
    NextNibble(c, k + 4);
    NextNibble(c, k);
  }

  lemma TailAbove(c: Bits)
    requires c == Tail()
    ensures Value(c[16..]) == 0xEDB8
  {
    HighNibbles();
    assert c[32..] == [];
    NextTwo(c, 24, 28, 32, 0xD, 0xE, 0);
    NextTwo(c, 16, 20, 24, 0x8, 0xB, 0xED);
  }

  lemma TailValue(c: Bits)
    requires c == Tail()
    ensures Value(c[0..]) == POLY
  {
    LowNibbles();
    TailAbove(c);
    NextTwo(c, 8, 12, 16, 0x3, 0x8, 0xEDB8);
    NextTwo(c, 0, 4, 8, 0x0, 0x2, 0xED_B883);
  }

  /** The constant of the inner loop is the generator, its coefficients reversed. */
  lemma PolyIsGenerator()
    ensures BitsOf(POLY, 32) == Tail()
  {
    var c := Tail();
    TailValue(c);
    assert c[0..] == c;
    BitsOfValue(c);
  }

  /** The bits of a 32-bit word. */
  ghost predicate Holds(r: nat, bits: Bits) {
    r < Pow2(32) && |bits| == 32 && BitsOf(r, 32) == bits
  }

  lemma BitStepBits(r: nat, bits: Bits)
    requires Holds(r, bits)
    ensures Holds(BitStep(r), StepBits(bits))
  {
    HalfBits(r);
    XorBits(r / 2, POLY, 32);
    PolyIsGenerator();
    BitStepFits(r);
  }

  lemma {:induction false} StepNBits(r: nat, n: nat, bits: Bits)
    requires Holds(r, bits)
    ensures Holds(StepN(r, n), StepBitsN(bits, n))
    decreases n
  {
    if n > 0 {
      BitStepBits(r, bits);
      StepNBits(BitStep(r), n - 1, StepBits(bits));
      assert StepN(r, n) == StepN(BitStep(r), n - 1);
    }
  }

  /** Mixing in something that starts above the lowest bit commutes with a step. */
  lemma MixAhead(r: Bits, later: Bits)
    requires |r| == 32 && |later| == 31
    ensures StepBits(Sum(r, [false] + later)) == Sum(StepBits(r), later + [false])
  {
    var x := Sum(r, [false] + later);
    assert forall i :: 0 <= i < 31 ==> x[1..][i] == (r[1..][i] != later[i]);
    assert x[0] == r[0];
  }

  /** Feeding up to 32 bits one at a time is mixing them in at once and stepping. */
  lemma {:induction false} FeedIsMixAndStep(r: Bits, bits: Bits)
    requires |r| == 32 && |bits| <= 32
    ensures Feed(r, bits) == StepBitsN(Sum(r, bits + Zeros(32 - |bits|)), |bits|)
    decreases |bits|
  {
    if bits == [] {
      assert Sum(r, [] + Zeros(32)) == r;
    } else {
      var first := [r[0] != bits[0]] + r[1..];
      var later := bits[1..] + Zeros(32 - |bits|);
      FeedIsMixAndStep(StepBits(first), bits[1..]);
      MixAhead(first, later);
      MixFirst(r, bits);
    }
  }

  lemma MixFirst(r: Bits, bits: Bits)
    requires |r| == 32 && 1 <= |bits| <= 32
    ensures var later := bits[1..] + Zeros(32 - |bits|);
            && Sum([r[0] != bits[0]] + r[1..], [false] + later) == Sum(r, bits + Zeros(32 - |bits|))
            && later + [false] == bits[1..] + Zeros(32 - |bits[1..]|)
  {
  }

  lemma {:induction false} FeedConcat(r: Bits, v: Bits, w: Bits)
    requires |r| == 32
    ensures Feed(r, v + w) == Feed(Feed(r, v), w)
    decreases |v|
  {
    if v == [] {
      assert v + w == w;
    } else {
      assert (v + w)[1..] == v[1..] + w;
      FeedConcat(StepBits([r[0] != v[0]] + r[1..]), v[1..], w);
    }
  }

  lemma ByteStepBits(r: nat, b: byte)
    requires r < Pow2(32)
    ensures BitsOf(ByteStep(r, b), 32) == Feed(BitsOf(r, 32), BitsOf(b, 8))
  {
    ThirtyTwo();
    XorFits(r, b, 32);
    StepNBits(Xor(r, b), 8, BitsOf(Xor(r, b), 32));
    XorBits(r, b, 32);
    ByteBits32(b);
    FeedIsMixAndStep(BitsOf(r, 32), BitsOf(b, 8));
  }

  /** The byte loop is the register fed with the bits of the file. */
  lemma {:induction false} RegisterBits(r: nat, data: seq<byte>)
    requires r < Pow2(32)
    ensures BitsOf(Register(r, data), 32) == Feed(BitsOf(r, 32), FileBits(data))
    decreases |data|
  {
    if data != [] {
      ByteStepBits(r, data[0]);
      RegisterFits(r, [data[0]]);
      assert [data[0]][1..] == [];
      RegisterBits(ByteStep(r, data[0]), data[1..]);
      FeedConcat(BitsOf(r, 32), BitsOf(data[0], 8), FileBits(data[1..]));
    }
  }

  // ------------------------------------------------------------------ linearity

  lemma StepBitsLinear(a: Bits, b: Bits)
    requires |a| == |b| == 32
    ensures StepBits(Sum(a, b)) == Sum(StepBits(a), StepBits(b))
  {
    assert forall i :: 0 <= i < 31 ==> Sum(a, b)[1..][i] == (a[1..][i] != b[1..][i]);
  }

  lemma {:induction false} FeedLinear(r: Bits, s: Bits, v: Bits, w: Bits)
    requires |r| == |s| == 32 && |v| == |w|
    ensures Feed(Sum(r, s), Sum(v, w)) == Sum(Feed(r, v), Feed(s, w))
    decreases |v|
  {
    if v != [] {
      var r1, s1 := [r[0] != v[0]] + r[1..], [s[0] != w[0]] + s[1..];
      assert [Sum(r, s)[0] != Sum(v, w)[0]] + Sum(r, s)[1..] == Sum(r1, s1);
      StepBitsLinear(r1, s1);
      assert Sum(v, w)[1..] == Sum(v[1..], w[1..]);
      FeedLinear(StepBits(r1), StepBits(s1), v[1..], w[1..]);
    }
  }

  function XorBytes(a: byte, b: byte): byte {
    ThirtyTwo();
    XorFits(a, b, 8);
    Xor(a, b)
  }

  /** Byte-wise exclusive or of files of equal length. */
  function XorFiles(a: seq<byte>, b: seq<byte>): (r: seq<byte>)
    requires |a| == |b|
    ensures |r| == |a|
  {
    if a == [] then [] else [XorBytes(a[0], b[0])] + XorFiles(a[1..], b[1..])
  }

  lemma SumConcat(a: Bits, b: Bits, c: Bits, d: Bits)
    requires |a| == |c| && |b| == |d|
    ensures Sum(a + b, c + d) == Sum(a, c) + Sum(b, d)
  {
  }

  lemma {:induction false} FileBitsXor(a: seq<byte>, b: seq<byte>)
    requires |a| == |b|
    ensures FileBits(XorFiles(a, b)) == Sum(FileBits(a), FileBits(b))
  {
    if a != [] {
      XorBits(a[0], b[0], 8);
      FileBitsXor(a[1..], b[1..]);
      SumConcat(BitsOf(a[0], 8), FileBits(a[1..]), BitsOf(b[0], 8), FileBits(b[1..]));
    }
  }

  lemma CrcAsBits(data: seq<byte>)
    ensures BitsOf(Crc32(data), 32) == Sum(Feed(BitsOf(ONES, 32), FileBits(data)), BitsOf(ONES, 32))
  {
    ThirtyTwo();
    RegisterBits(ONES, data);
    XorBits(Register(ONES, data), ONES, 32);
  }

  /** Three times the same start is once the start, and likewise for the complement. */
  lemma ThreeOnes(x: Bits, y: Bits, z: Bits, o: Bits)
    requires |x| == |y| == |z| == |o|
    ensures Sum(Sum(o, o), o) == o
    ensures Sum(Sum(Sum(x, o), Sum(y, o)), Sum(z, o)) == Sum(Sum(Sum(x, y), z), o)
  {
  }

  /** The CRC is affine: the sum of the CRCs of three files of equal length is the CRC of
   *  their sum. */
  lemma CrcIsAffine(a: seq<byte>, b: seq<byte>, c: seq<byte>)
    requires |a| == |b| == |c|
    ensures Xor(Xor(Crc32(a), Crc32(b)), Crc32(c)) == Crc32(XorFiles(XorFiles(a, b), c))
  {
    var o, all := BitsOf(ONES, 32), XorFiles(XorFiles(a, b), c);
    CrcAsBits(a);
    CrcAsBits(b);
    CrcAsBits(c);
    CrcAsBits(all);
    XorBits(Crc32(a), Crc32(b), 32);
    XorBits(Xor(Crc32(a), Crc32(b)), Crc32(c), 32);
    FileBitsXor(a, b);
    FileBitsXor(XorFiles(a, b), c);
    FeedLinear(o, o, FileBits(a), FileBits(b));
    FeedLinear(Sum(o, o), o, Sum(FileBits(a), FileBits(b)), FileBits(c));
    ThreeOnes(Feed(o, FileBits(a)), Feed(o, FileBits(b)), Feed(o, FileBits(c)), o);
    CrcFits(a);
    CrcFits(b);
    CrcFits(c);
    CrcFits(all);
    XorFits(Crc32(a), Crc32(b), 32);
    XorFits(Xor(Crc32(a), Crc32(b)), Crc32(c), 32);
    SameWord(Xor(Xor(Crc32(a), Crc32(b)), Crc32(c)), Crc32(all));
  }

  // ------------------------------------------------------------------ bursts

  lemma StepBitsAt(r: Bits, i: nat)
    requires |r| == 32 && i < 32
    ensures StepBits(r)[i] == ((i < 31 && r[i + 1]) != (r[0] && Tail()[i]))
  {
  }

  /** A step can be undone: its last bit tells whether the generator was mixed in. */
  lemma StepBitsInjective(a: Bits, b: Bits)
    requires |a| == |b| == 32 && StepBits(a) == StepBits(b)
    ensures a == b
  {
    assert Tail()[31];
    StepBitsAt(a, 31);
    StepBitsAt(b, 31);
    forall i | 0 <= i < 32 ensures a[i] == b[i] {
      if i > 0 {
        StepBitsAt(a, i - 1);
        StepBitsAt(b, i - 1);
      }
    }
  }

  lemma {:induction false} StepBitsNInjective(a: Bits, b: Bits, n: nat)
    requires |a| == |b| == 32 && StepBitsN(a, n) == StepBitsN(b, n)
    ensures a == b
    decreases n
  {
    if n > 0 {
      StepBitsNInjective(StepBits(a), StepBits(b), n - 1);
      StepBitsInjective(a, b);
    }
  }

  lemma {:induction false} FeedInjective(r: Bits, s: Bits, bits: Bits)
    requires |r| == |s| == 32 && Feed(r, bits) == Feed(s, bits)
    ensures r == s
    decreases |bits|
  {
    if bits != [] {
      var r1, s1 := [r[0] != bits[0]] + r[1..], [s[0] != bits[0]] + s[1..];
      FeedInjective(StepBits(r1), StepBits(s1), bits[1..]);
      StepBitsInjective(r1, s1);
      assert r1[0] == s1[0] && r1[1..] == s1[1..];
      assert r == [r[0]] + r[1..] && s == [s[0]] + s[1..];
    }
  }

  /** Different windows of at most 32 bits leave different registers. */
  lemma WindowInjective(r: Bits, v: Bits, w: Bits)
    requires |r| == 32 && |v| == |w| <= 32 && Feed(r, v) == Feed(r, w)
    ensures v == w
  {
    var pad := Zeros(32 - |v|);
    FeedIsMixAndStep(r, v);
    FeedIsMixAndStep(r, w);
    StepBitsNInjective(Sum(r, v + pad), Sum(r, w + pad), |v|);
    forall i | 0 <= i < |v| ensures v[i] == w[i] {
      assert Sum(r, v + pad)[i] == Sum(r, w + pad)[i];
    }
  }

  lemma FirstByte(a: seq<byte>)
    requires a != []
    ensures |FileBits(a)| >= 8 && FileBits(a)[..8] == BitsOf(a[0], 8) && FileBits(a)[8..] == FileBits(a[1..])
  {
  }

  lemma ByteFromBits(a: byte, b: byte)
    requires BitsOf(a, 8) == BitsOf(b, 8)
    ensures a == b
  {
    ThirtyTwo();
    ValueOfBits(a, 8);
    ValueOfBits(b, 8);
  }

  lemma {:induction false} FileBitsInjective(a: seq<byte>, b: seq<byte>)
    requires FileBits(a) == FileBits(b)
    ensures a == b
  {
    if a != [] {
      FirstByte(a);
      FirstByte(b);
      ByteFromBits(a[0], b[0]);
      FileBitsInjective(a[1..], b[1..]);
      assert a == [a[0]] + a[1..] && b == [b[0]] + b[1..];
    }
  }

  /** Equal CRCs of files that agree outside a window mean equal windows. */
  lemma EqualCrcEqualWindow(pre: Bits, v: Bits, w: Bits, post: Bits)
    requires |v| == |w| <= 32
    requires Feed(BitsOf(ONES, 32), pre + v + post) == Feed(BitsOf(ONES, 32), pre + w + post)
    ensures v == w
  {
    var o := BitsOf(ONES, 32);
    FeedConcat(o, pre + v, post);
    FeedConcat(o, pre + w, post);
    FeedConcat(o, pre, v);
    FeedConcat(o, pre, w);
    FeedInjective(Feed(o, pre + v), Feed(o, pre + w), post);
    WindowInjective(Feed(o, pre), v, w);
  }

  lemma SameRegister(a: seq<byte>, b: seq<byte>)
    requires Crc32(a) == Crc32(b)
    ensures Feed(BitsOf(ONES, 32), FileBits(a)) == Feed(BitsOf(ONES, 32), FileBits(b))
  {
    CrcAsBits(a);
    CrcAsBits(b);
    var o := BitsOf(ONES, 32);
    var x, y := Feed(o, FileBits(a)), Feed(o, FileBits(b));
    forall i | 0 <= i < 32 ensures x[i] == y[i] {
      assert Sum(x, o)[i] == Sum(y, o)[i];
    }
  }

  /** Bits that agree outside a window, cut at the window. */
  lemma Cut(x: Bits, y: Bits, lo: nat, hi: nat)
    requires |x| == |y| && lo <= hi <= |x|
    requires forall k :: 0 <= k < |x| && !(lo <= k < hi) ==> x[k] == y[k]
    ensures x == x[..lo] + x[lo..hi] + x[hi..] && y == x[..lo] + y[lo..hi] + x[hi..]
  {
  }

  /** Burst detection: files of equal length that agree outside some 32 consecutive bits
   *  have the same CRC only if they are the same file. */
  lemma BurstDetected(a: seq<byte>, b: seq<byte>, i: nat)
    requires |a| == |b|
    requires forall k :: 0 <= k < 8 * |a| && !(i <= k < i + 32) ==> FileBits(a)[k] == FileBits(b)[k]
    ensures Crc32(a) == Crc32(b) <==> a == b
  {
    if Crc32(a) == Crc32(b) {
      var x, y := FileBits(a), FileBits(b);
      var lo := if i < |x| then i else |x|;
      var hi := if i + 32 < |x| then i + 32 else |x|;
      Cut(x, y, lo, hi);
      SameRegister(a, b);
      EqualCrcEqualWindow(x[..lo], x[lo..hi], y[lo..hi], x[hi..]);
      FileBitsInjective(a, b);
    }
  }

  // ------------------------------------------------------------------ collisions

  /** The file with the given bits. */
  function BytesOf(bits: Bits): (data: seq<byte>)
    requires |bits| % 8 == 0
    ensures 8 * |data| == |bits|
    decreases |bits|
  {
    if bits == [] then []
    else
      BitsOfValue(bits[..8]);
      ThirtyTwo();
      [Value(bits[..8])] + BytesOf(bits[8..])
  }

  lemma {:induction false} BitsOfBytes(bits: Bits)
    requires |bits| % 8 == 0
    ensures FileBits(BytesOf(bits)) == bits
    decreases |bits|
  {
    if bits != [] {
      BitsOfValue(bits[..8]);
      BitsOfBytes(bits[8..]);
      assert bits == bits[..8] + bits[8..];
    }
  }

  lemma {:induction false} ZerosStay(n: nat)
    ensures Feed(Zeros(32), Zeros(n)) == Zeros(32) && StepBitsN(Zeros(32), n) == Zeros(32)
    decreases n
  {
    if n > 0 {
      assert StepBits(Zeros(32)) == Zeros(32);
      assert [false] + Zeros(32)[1..] == Zeros(32) && Zeros(n)[1..] == Zeros(n - 1);
      ZerosStay(n - 1);
    }
  }

  /** The generator itself is a burst of 33 bits that the register forgets. */
  lemma GeneratorVanishes()
    ensures Feed(Zeros(32), [true] + Tail()) == Zeros(32)
  {
    var t := Tail();
    var first := [true] + Zeros(32)[1..];
    assert first[1..] + [false] == Zeros(32);
    assert StepBits(first) == Sum(Zeros(32), t) == t;
    assert ([true] + t)[1..] == t;
    assert t + Zeros(0) == t && Sum(t, t) == Zeros(32);
    FeedIsMixAndStep(t, t);
    ZerosStay(32);
  }

  /** Mixing the generator into the first 33 bits of a file changes nothing in the end. */
  lemma GeneratorHides(o: Bits, bits: Bits)
    requires |o| == 32 && |bits| >= 33
    ensures Feed(o, Sum(bits, [true] + Tail() + Zeros(|bits| - 33))) == Feed(o, bits)
  {
    var g, rest := [true] + Tail(), Zeros(|bits| - 33);
    GeneratorVanishes();
    FeedConcat(Zeros(32), g, rest);
    ZerosStay(|bits| - 33);
    FeedLinear(o, Zeros(32), bits, g + rest);
    SumZero(o);
    SumZero(Feed(o, bits));
  }

  /** The bound of 32 bits is sharp: every file of at least five bytes has a different one
   *  of the same length and the same CRC. */
  lemma CollisionExists(a: seq<byte>) returns (b: seq<byte>)
    requires |a| >= 5
    ensures |b| == |a| && b != a && Crc32(b) == Crc32(a)
  {
    var x := FileBits(a);
    var y := Sum(x, [true] + Tail() + Zeros(|x| - 33));
    b := BytesOf(y);
    BitsOfBytes(y);
    assert y[0] != x[0];
    GeneratorHides(BitsOf(ONES, 32), x);
    SameRegisterSameCrc(a, b);
  }

  lemma SameRegisterSameCrc(a: seq<byte>, b: seq<byte>)
    requires Feed(BitsOf(ONES, 32), FileBits(a)) == Feed(BitsOf(ONES, 32), FileBits(b))
    ensures Crc32(a) == Crc32(b)
  {
    CrcAsBits(a);
    CrcAsBits(b);
    CrcFits(a);
    CrcFits(b);
    SameWord(Crc32(a), Crc32(b));
  }

  lemma SumZero(a: Bits)
    ensures Sum(a, Zeros(|a|)) == a
  {
  }
}
