/** What the CRC means: the remainder of the file, read as a polynomial over GF(2), by the
 *  generator of section 8 of RFC 1952 and section 8.1.1.6.2 of ITU-T V.42.
 *
 *  A polynomial is its coefficients, highest power first. */
module CrcPolynomial {
  import opened Bytes
  import opened Crc
  import opened CrcBits

  function Generator(): (g: Bits)
    ensures |g| == 33
  {
    [true] + Tail()
  }

  /** One step of long division: cancel the leading coefficient. */
  function Reduce(p: Bits): (r: Bits)
    requires |p| >= 33
    ensures |r| == |p| - 1
  {
    if p[0] then Sum(p[1..], Tail() + Zeros(|p| - 33)) else p[1..]
  }

  function Remainder(p: Bits): (r: Bits)
    requires |p| >= 32
    ensures |r| == 32
    decreases |p|
  {
    if |p| == 32 then p else Remainder(Reduce(p))
  }

  function Quotient(p: Bits): (q: Bits)
    requires |p| >= 32
    ensures |q| == |p| - 32
    decreases |p|
  {
    if |p| == 32 then [] else [p[0]] + Quotient(Reduce(p))
  }

  /** The product of q with the generator. */
  function Times(q: Bits): (p: Bits)
    ensures |p| == |q| + 32
  {
    if q == [] then Zeros(32)
    else Sum((if q[0] then Generator() else Zeros(33)) + Zeros(|q| - 1), [false] + Times(q[1..]))
  }

  lemma TimesCons(b: bool, q: Bits)
    ensures Times([b] + q) == Sum((if b then Generator() else Zeros(33)) + Zeros(|q|), [false] + Times(q))
  {
    assert ([b] + q)[1..] == q;
  }

  lemma ZerosCons(n: nat, r: Bits)
    ensures [false] + (Zeros(n) + r) == Zeros(n + 1) + r
  {
  }

  /** Putting the leading coefficient back. */
  lemma Leading(p: Bits, lead: Bits, product: Bits, rest: Bits)
    requires |p| >= 33 && |lead| == |p| == |product| + 1 == |rest| + 1
    requires lead == (if p[0] then Generator() else Zeros(33)) + Zeros(|p| - 33)
    requires Reduce(p) == Sum(product, rest)
    ensures p == Sum(Sum(lead, [false] + product), [false] + rest)
  {
    assert lead[0] == p[0];
    forall i | 0 < i < |p| ensures p[i] == ((lead[i] != product[i - 1]) != rest[i - 1]) {
      assert Reduce(p)[i - 1] == (product[i - 1] != rest[i - 1]);
      assert lead[i] == (p[0] && (Tail() + Zeros(|p| - 33))[i - 1]);
    }
  }

  lemma Assemble(p: Bits, q: Bits, r: Bits)
    requires |p| >= 33 && |q| == |p| - 33 && |r| == 32 && Reduce(p) == Sum(Times(q), Zeros(|q|) + r)
    ensures p == Sum(Times([p[0]] + q), Zeros(|q| + 1) + r)
  {
    TimesCons(p[0], q);
    Leading(p, (if p[0] then Generator() else Zeros(33)) + Zeros(|q|), Times(q), Zeros(|q|) + r);
    ZerosCons(|q|, r);
  }

  lemma ShortDivision(p: Bits)
    requires |p| == 32
    ensures p == Sum(Times([]), Zeros(0) + p)
  {
  }

  /** Long division divides: p is the quotient times the generator plus the remainder. */
  lemma {:induction false} Division(p: Bits)
    requires |p| >= 32
    ensures p == Sum(Times(Quotient(p)), Zeros(|p| - 32) + Remainder(p))
    decreases |p|
  {
    if |p| == 32 {
      ShortDivision(p);
    } else {
      Division(Reduce(p));
      Assemble(p, Quotient(Reduce(p)), Remainder(p));
    }
  }

  /** A product plus a remainder, its leading coefficient split off. */
  lemma SplitLeading(q: Bits, r: Bits)
    requires q != [] && |r| == 32
    ensures Sum(Times(q), Zeros(|q|) + r)
            == Sum((if q[0] then Generator() else Zeros(33)) + Zeros(|q| - 1),
                   [false] + Sum(Times(q[1..]), Zeros(|q| - 1) + r))
  {
    ZerosCons(|q| - 1, r);
    SumAssociates((if q[0] then Generator() else Zeros(33)) + Zeros(|q| - 1), Times(q[1..]), Zeros(|q| - 1) + r);
  }

  lemma SumAssociates(lead: Bits, x: Bits, y: Bits)
    requires |lead| == |x| + 1 == |y| + 1
    ensures Sum(Sum(lead, [false] + x), [false] + y) == Sum(lead, [false] + Sum(x, y))
  {
  }

  /** Sums that start the same way. */
  lemma SumCancels(lead: Bits, lead': Bits, x: Bits, y: Bits)
    requires |lead| == |lead'| == |x| + 1 == |y| + 1
    requires Sum(lead, [false] + x) == Sum(lead', [false] + y)
    ensures lead[0] == lead'[0]
    ensures lead == lead' ==> x == y
  {
    assert Sum(lead, [false] + x)[0] == Sum(lead', [false] + y)[0];
    forall i | 0 <= i < |x| && lead == lead' ensures x[i] == y[i] {
      assert Sum(lead, [false] + x)[i + 1] == Sum(lead', [false] + y)[i + 1];
    }
  }

  /** And the result is the only one: quotient and remainder are determined. */
  lemma {:induction false} DivisionUnique(q: Bits, r: Bits, q': Bits, r': Bits)
    requires |q| == |q'| && |r| == |r'| == 32
    requires Sum(Times(q), Zeros(|q|) + r) == Sum(Times(q'), Zeros(|q|) + r')
    ensures q == q' && r == r'
    decreases |q|
  {
    if q == [] {
      forall i | 0 <= i < 32 ensures r[i] == r'[i] {
        assert Sum(Times(q), Zeros(0) + r)[i] == Sum(Times(q'), Zeros(0) + r')[i];
      }
    } else {
      var n := |q| - 1;
      SplitLeading(q, r);
      SplitLeading(q', r');
      SumCancels((if q[0] then Generator() else Zeros(33)) + Zeros(n),
                 (if q'[0] then Generator() else Zeros(33)) + Zeros(n),
                 Sum(Times(q[1..]), Zeros(n) + r), Sum(Times(q'[1..]), Zeros(n) + r'));
      DivisionUnique(q[1..], r, q'[1..], r');
      assert q == [q[0]] + q[1..] && q' == [q'[0]] + q'[1..];
    }
  }

  /** The message times x^32, with the register r added to its first 32 coefficients. */
  function Framed(r: Bits, message: Bits): (p: Bits)
    requires |r| == 32
    ensures |p| == |message| + 32
  {
    Sum(message + Zeros(32), r + Zeros(|message|))
  }

  /** Taking one bit into the register is one step of the division. */
  lemma FeedIsReduce(r: Bits, message: Bits)
    requires |r| == 32 && message != []
    ensures Reduce(Framed(r, message)) == Framed(StepBits([r[0] != message[0]] + r[1..]), message[1..])
  {
    var p, n := Framed(r, message), |message| - 1;
    var r1 := [r[0] != message[0]] + r[1..];
    var shifted := r[1..] + [false];
    assert p[0] == r1[0] && r1[1..] == r[1..];
    forall i | 0 <= i < n + 32
      ensures Reduce(p)[i] == Framed(StepBits(r1), message[1..])[i]
    {
      assert p[i + 1] == ((message[1..] + Zeros(32))[i] != (shifted + Zeros(n))[i]);
    }
  }

  lemma {:induction false} FeedIsRemainder(r: Bits, message: Bits)
    requires |r| == 32
    ensures Feed(r, message) == Remainder(Framed(r, message))
    decreases |message|
  {
    if message == [] {
      assert Framed(r, message) == r;
    } else {
      FeedIsReduce(r, message);
      FeedIsRemainder(StepBits([r[0] != message[0]] + r[1..]), message[1..]);
    }
  }

  function Complement(a: Bits): (r: Bits)
    ensures |r| == |a|
  {
    seq(|a|, i requires 0 <= i < |a| => !a[i])
  }

  lemma {:induction false} OnesBits(n: nat)
    ensures Value(Complement(Zeros(n))) == Pow2(n) - 1
  {
    if n > 0 {
      OnesBits(n - 1);
      assert Complement(Zeros(n))[1..] == Complement(Zeros(n - 1));
    }
  }

  lemma AllOnes(o: Bits)
    requires o == BitsOf(ONES, 32)
    ensures |o| == 32 && forall i :: 0 <= i < 32 ==> o[i]
  {
    var n := 32;
    ThirtyTwo();
    OnesBits(n);
    BitsOfValue(Complement(Zeros(n)));
  }

  lemma ComplementedRemainder(o: Bits, message: Bits)
    requires |o| == 32 && forall i :: 0 <= i < 32 ==> o[i]
    ensures Sum(Feed(o, message), o) == Complement(Remainder(Framed(o, message)))
  {
    FeedIsRemainder(o, message);
    ComplementIsSum(Remainder(Framed(o, message)), o);
  }

  /** The CRC of a file is the complement of the remainder of x^32 times the file, its first
   *  32 coefficients complemented, by the generator; and some multiple of the generator
   *  makes up the rest. */
  lemma CrcIsRemainder(data: seq<byte>)
    ensures var p := Framed(BitsOf(ONES, 32), FileBits(data));
            && BitsOf(Crc32(data), 32) == Complement(Remainder(p))
            && p == Sum(Times(Quotient(p)), Zeros(|p| - 32) + Remainder(p))
    ensures forall i :: 0 <= i < 32 ==> BitsOf(ONES, 32)[i]
  {
    var o := BitsOf(ONES, 32);
    AllOnes(o);
    CrcAsBits(data);
    ComplementedRemainder(o, FileBits(data));
    Division(Framed(o, FileBits(data)));
  }

  lemma ComplementIsSum(a: Bits, o: Bits)
    requires |a| == |o| && forall i :: 0 <= i < |o| ==> o[i]
    ensures Sum(a, o) == Complement(a)
  {
  }

  // ------------------------------------------------------------------ which files have the same CRC

  /** A multiple of the generator. */
  ghost predicate Divisible(p: Bits) {
    if |p| < 32 then p == Zeros(|p|) else exists q :: |q| + 32 == |p| && Times(q) == p
  }

  lemma MultiplesVanish(q: Bits)
    ensures Remainder(Times(q)) == Zeros(32) && Quotient(Times(q)) == q
  {
    Division(Times(q));
    DivisionUnique(q, Zeros(32), Quotient(Times(q)), Remainder(Times(q)));
  }

  lemma NothingRemains(p: Bits)
    requires |p| >= 32 && Remainder(p) == Zeros(32)
    ensures Times(Quotient(p)) == p
  {
    Division(p);
    SumWithZeros(Times(Quotient(p)), Remainder(p));
  }

  lemma SumWithZeros(a: Bits, zero: Bits)
    requires |a| >= 32 && zero == Zeros(32)
    ensures Sum(a, Zeros(|a| - 32) + zero) == a
  {
  }

  lemma DivisibleIffNoRemainder(p: Bits)
    requires |p| >= 32
    ensures Divisible(p) <==> Remainder(p) == Zeros(32)
  {
    if q :| |q| + 32 == |p| && Times(q) == p { MultiplesVanish(q); }
    if Remainder(p) == Zeros(32) { NothingRemains(p); }
  }

  lemma {:induction false} TimesSnoc(q: Bits)
    ensures Times(q + [false]) == Times(q) + [false]
  {
    if q != [] {
      assert (q + [false])[1..] == q[1..] + [false];
      TimesSnoc(q[1..]);
    }
  }

  /** The generator ends in 1, so a product ends as its factor does. */
  lemma {:induction false} TimesLast(q: Bits)
    requires q != []
    ensures Times(q)[|q| + 31] == q[|q| - 1]
  {
    if |q| > 1 { TimesLast(q[1..]); }
  }

  lemma ShortMultiple(p: Bits)
    requires |p| < 32
    ensures Divisible(p + [false]) <==> Divisible(p)
  {
    assert Times([]) == Zeros(32);
    assert Divisible(p + [false]) <==> p + [false] == Zeros(|p| + 1);
    if p + [false] == Zeros(|p| + 1) {
      forall i | 0 <= i < |p| ensures !p[i] { assert !(p + [false])[i]; }
    }
  }

  lemma SameFront(a: Bits, b: Bits)
    requires a + [false] == b + [false]
    ensures a == b
  {
    assert (a + [false])[..|a|] == a && (b + [false])[..|b|] == b;
  }

  lemma LastSplitOff(q: Bits)
    requires q != [] && !q[|q| - 1]
    ensures q == q[..|q| - 1] + [false]
  {
  }

  lemma FactorEndsInZero(q: Bits, p: Bits)
    requires q != [] && Times(q) == p + [false]
    ensures Times(q[..|q| - 1]) == p
  {
    var front := q[..|q| - 1];
    TimesLast(q);
    LastSplitOff(q);
    TimesSnoc(front);
    SameFront(Times(front), p);
  }

  /** The generator has no factor x. */
  lemma DivisibleSnoc(p: Bits)
    ensures Divisible(p + [false]) <==> Divisible(p)
  {
    if |p| < 32 {
      ShortMultiple(p);
    } else {
      if q :| |q| + 32 == |p| && Times(q) == p {
        TimesSnoc(q);
        assert |q + [false]| + 32 == |p + [false]|;
      }
      if q :| |q| + 32 == |p| + 1 && Times(q) == p + [false] {
        FactorEndsInZero(q, p);
        assert |q[..|q| - 1]| + 32 == |p|;
      }
    }
  }

  lemma {:induction false} DivisibleShifted(p: Bits, n: nat)
    ensures Divisible(p + Zeros(n)) <==> Divisible(p)
    decreases n
  {
    if n == 0 {
      assert p + Zeros(0) == p;
    } else {
      DivisibleShifted(p, n - 1);
      DivisibleSnoc(p + Zeros(n - 1));
      assert p + Zeros(n) == p + Zeros(n - 1) + [false];
    }
  }

  /** The registers left by two messages differ by the remainder of their difference. */
  lemma RegistersDiffer(o: Bits, v: Bits, w: Bits)
    requires |o| == 32 && |v| == |w|
    ensures Sum(Feed(o, v), Feed(o, w)) == Remainder(Sum(v, w) + Zeros(32))
  {
    var d, zero := Sum(v, w), Zeros(32);
    FeedLinear(o, o, v, w);
    assert Sum(o, o) == zero;
    FeedIsRemainder(zero, d);
    assert Framed(zero, d) == d + zero;
  }

  lemma SumIsZero(a: Bits, b: Bits)
    requires |a| == |b|
    ensures Sum(a, b) == Zeros(|a|) <==> a == b
  {
    if Sum(a, b) == Zeros(|a|) {
      forall i | 0 <= i < |a| ensures a[i] == b[i] { assert !Sum(a, b)[i]; }
    }
  }

  /** Two files of one length have the same CRC exactly if their difference is a multiple of
   *  the generator. */
  lemma EqualCrcIffDivisible(a: seq<byte>, b: seq<byte>)
    requires |a| == |b|
    ensures Crc32(a) == Crc32(b) <==> Divisible(Sum(FileBits(a), FileBits(b)))
  {
    var o, x, y := BitsOf(ONES, 32), FileBits(a), FileBits(b);
    if Crc32(a) == Crc32(b) { SameRegister(a, b); }
    if Feed(o, x) == Feed(o, y) { SameRegisterSameCrc(a, b); }
    SumIsZero(Feed(o, x), Feed(o, y));
    RegistersDiffer(o, x, y);
    DivisibleIffNoRemainder(Sum(x, y) + Zeros(32));
    DivisibleShifted(Sum(x, y), 32);
  }
}
