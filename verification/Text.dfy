/** The C library text routines the event formats rely on: %d, atoi, sscanf, strtok_r,
 *  strchr, inet_ntop and inet_pton.  Text is a sequence of ASCII codes. */
module Text {
  import opened Bytes
  import opened Seqs
  import opened ServerCommon

  type Chars = seq<byte>

  const BAR: byte := 124
  const COLON: byte := 58
  const DOT: byte := 46
  const MINUS: byte := 45
  const PLUS: byte := 43
  const ZERO: byte := 48

  predicate IsDigit(c: byte) {
    ZERO <= c <= ZERO + 9
  }

  predicate IsSpace(c: byte) {
    c == 32 || 9 <= c <= 13
  }

  // ------------------------------------------------------------------ decimal numbers

  function Digits(n: nat): (s: Chars)
    ensures s != [] && forall c :: c in s ==> IsDigit(c)
    ensures n > 0 ==> s[0] != ZERO
    ensures n == 0 ==> s == [ZERO]
  {
    if n < 10 then [ZERO + n] else Digits(n / 10) + [ZERO + n % 10]
  }

  /** %d. */
  function Decimal(n: int): (s: Chars)
    ensures s != [] && forall c :: c in s ==> IsDigit(c) || c == MINUS
    ensures IsDigit(s[0]) || s[0] == MINUS
  {
    if n < 0 then [MINUS] + Digits(-n) else Digits(n)
  }

  /** The value of the leading digits of s, continuing from v, and what follows them. */
  function ScanDigits(s: Chars, v: nat): (nat, Chars) {
    if s == [] || !IsDigit(s[0]) then (v, s)
    else ScanDigits(s[1..], 10 * v + (s[0] - ZERO))
  }

  function SkipSpace(s: Chars): Chars {
    if s != [] && IsSpace(s[0]) then SkipSpace(s[1..]) else s
  }

  /** One %d of sscanf: white space, a sign, digits.  None if there is no digit. */
  function ScanInt(s: Chars): Option<(int, Chars)> {
    var t := SkipSpace(s);
    var negative := t != [] && t[0] == MINUS;
    var u := if t != [] && (t[0] == MINUS || t[0] == PLUS) then t[1..] else t;
    if u == [] || !IsDigit(u[0]) then None
    else
      var (v, rest) := ScanDigits(u, 0);
      var n: int := v;
      Some((if negative then -n else n, rest))
  }

  /** atoi: zero when there is no number. */
  function Atoi(s: Chars): int {
    match ScanInt(s)
    case None => 0
    case Some((v, _)) => v
  }

  /** What decimal digits mean: the code of each is 48 more than it, and the last one counts
   *  ones. */
  function DecimalValue(s: Chars): int {
    if s == [] then 0 else 10 * DecimalValue(s[..|s| - 1]) + s[|s| - 1] as int - 48
  }

  /** A printed number is its sign and the digits that mean its value, with no leading zero. */
  lemma DecimalMeans(n: int)
    ensures n >= 0 ==> DecimalValue(Decimal(n)) == n
    ensures n < 0 ==> Decimal(n)[0] == 45 && DecimalValue(Decimal(n)[1..]) == -n
    ensures var digits := if n < 0 then Decimal(n)[1..] else Decimal(n);
            && digits != [] && (forall c :: c in digits ==> 48 <= c <= 57)
            && (digits[0] == 48 ==> digits == [48])
  {
    DigitsMean(if n < 0 then -n else n);
  }

  lemma {:induction false} DigitsMean(n: nat)
    ensures DecimalValue(Digits(n)) == n
  {
    if n >= 10 {
      DigitsMean(n / 10);
      assert Digits(n)[..|Digits(n)| - 1] == Digits(n / 10);
    } else {
      assert Digits(n)[..0] == [];
    }
  }

  lemma OneDigit(n: nat)
    requires n < 10
    ensures Decimal(n) == [48 + n]
  {
  }

  lemma {:induction false} ScanDigitsSnoc(s: Chars, c: byte, v: nat, rest: Chars)
    requires (forall x :: x in s ==> IsDigit(x)) && IsDigit(c)
    requires rest != [] ==> !IsDigit(rest[0])
    ensures ScanDigits(s, v).1 == []
    ensures ScanDigits(s + [c] + rest, v) == (10 * ScanDigits(s, v).0 + (c - ZERO), rest)
    decreases |s|
  {
    var all := s + [c] + rest;
    if s == [] {
      assert all[0] == c && all[1..] == rest;
    } else {
      assert IsDigit(s[0]) by { assert s[0] in s; }
      assert all[0] == s[0] && all[1..] == s[1..] + [c] + rest;
      ScanDigitsSnoc(s[1..], c, 10 * v + (s[0] - ZERO), rest);
    }
  }

  lemma {:induction false} ScanDigitsOfDigits(n: nat, rest: Chars)
    requires rest != [] ==> !IsDigit(rest[0])
    ensures ScanDigits(Digits(n) + rest, 0) == (n, rest)
  {
    if n < 10 {
      ScanDigitsSnoc([], ZERO + n, 0, rest);
      assert [] + [ZERO + n] + rest == Digits(n) + rest;
    } else {
      ScanDigitsOfDigits(n / 10, []);
      assert Digits(n / 10) + [] == Digits(n / 10);
      ScanDigitsSnoc(Digits(n / 10), ZERO + n % 10, 0, rest);
    }
  }

  lemma ScanIntSigned(u: Chars, v: nat, rest: Chars)
    requires u != [] && IsDigit(u[0]) && ScanDigits(u, 0) == (v, rest)
    ensures ScanInt(u) == Some((v as int, rest)) && ScanInt([MINUS] + u) == Some((0 - v as int, rest))
  {
    assert ([MINUS] + u)[1..] == u;
  }

  /** Reading back a printed number, whatever non-digit follows. */
  lemma ScanIntOfDecimal(n: int, rest: Chars)
    requires rest != [] ==> !IsDigit(rest[0])
    ensures ScanInt(Decimal(n) + rest) == Some((n, rest))
    ensures Atoi(Decimal(n) + rest) == n
  {
    var v: nat := if n < 0 then -n else n;
    ScanDigitsOfDigits(v, rest);
    assert Digits(v)[0] in Digits(v);
    ScanIntSigned(Digits(v) + rest, v, rest);
    assert n < 0 ==> Decimal(n) + rest == [MINUS] + (Digits(v) + rest);
  }

  /** White space and a plus sign in front of a number are skipped, as %d and atoi do. */
  lemma SpaceAndPlus(c: byte, s: Chars, digit: byte, later: Chars)
    requires c == 32 || 9 <= c <= 13
    requires 48 <= digit <= 57
    ensures ScanInt([c] + s) == ScanInt(s)
    ensures ScanInt([43, digit] + later) == ScanInt([digit] + later)
  {
    assert ([c] + s)[1..] == s;
    assert ([43, digit] + later)[1..] == [digit] + later;
  }

  /** What does not begin like a number is none, and counts as zero. */
  lemma NotANumber(c: byte, s: Chars)
    requires !(48 <= c <= 57) && c != 43 && c != 45 && c != 32 && !(9 <= c <= 13)
    ensures ScanInt([]) == None && Atoi([]) == 0
    ensures ScanInt([c] + s) == None && Atoi([c] + s) == 0
  {
  }

  lemma AtoiOfDecimal(n: int)
    ensures Atoi(Decimal(n)) == n
  {
    ScanIntOfDecimal(n, []);
    assert Decimal(n) + [] == Decimal(n);
  }

  // ------------------------------------------------------------------ tokens

  function SkipDelims(s: Chars, d: byte): (r: Chars)
    ensures |r| <= |s|
  {
    if s != [] && s[0] == d then SkipDelims(s[1..], d) else s
  }

  /** The part of s before the first d. */
  function Before(s: Chars, d: byte): (r: Chars)
    ensures |r| <= |s| && d !in r && r <= s
    ensures |r| < |s| ==> s[|r|] == d
  {
    if s == [] || s[0] == d then [] else [s[0]] + Before(s[1..], d)
  }

  /** One call of strtok_r: delimiters in front are skipped, so empty fields vanish. */
  function NextToken(s: Chars, d: byte): (r: Option<(Chars, Chars)>)
    ensures r.Some? ==> r.value.0 != [] && d !in r.value.0 && |r.value.1| < |s|
  {
    var t := SkipDelims(s, d);
    if t == [] then None
    else
      TokenNotEmpty(s, d);
      var token := Before(t, d);
      Some((token, if |token| < |t| then t[|token| + 1..] else []))
  }

  lemma {:induction false} TokenNotEmpty(s: Chars, d: byte)
    ensures SkipDelims(s, d) != [] ==> SkipDelims(s, d)[0] != d
  {
    if s != [] && s[0] == d { TokenNotEmpty(s[1..], d); }
  }

  lemma {:induction false} BeforeDelim(s: Chars, d: byte, rest: Chars)
    requires d !in s
    ensures Before(s + [d] + rest, d) == s
    ensures Before(s, d) == s
  {
    var all := s + [d] + rest;
    if s != [] {
      assert all[1..] == s[1..] + [d] + rest;
      BeforeDelim(s[1..], d, rest);
    }
  }

  /** A field followed by a delimiter, and a last field. */
  lemma TokenOfField(s: Chars, d: byte, rest: Chars)
    requires s != [] && d !in s
    ensures NextToken(s + [d] + rest, d) == Some((s, rest))
    ensures NextToken(s, d) == Some((s, []))
  {
    BeforeDelim(s, d, rest);
    var all := s + [d] + rest;
    assert all[0] == s[0] && all[|s| + 1..] == rest;
  }

  /** An empty field is no field. */
  lemma NoToken(d: byte)
    ensures NextToken([], d) == None && NextToken([d], d) == None
  {
    assert [d][1..] == [];
  }

  /** Calls of strtok_r until there is no token left. */
  function Tokens(s: Chars, d: byte): seq<Chars>
    decreases |s|
  {
    match NextToken(s, d)
    case Some((token, rest)) => [token] + Tokens(rest, d)
    case None => []
  }

  function Join(fields: seq<Chars>, d: byte): Chars {
    if fields == [] then [] else if |fields| == 1 then fields[0] else fields[0] + [d] + Join(fields[1..], d)
  }

  function NonEmpty(fields: seq<Chars>): seq<Chars> {
    if fields == [] then [] else (if fields[0] == [] then [] else [fields[0]]) + NonEmpty(fields[1..])
  }

  /** A first field, empty or not, and a field on its own. */
  lemma FirstField(f: Chars, d: byte, rest: Chars)
    requires d !in f
    ensures Tokens(f + [d] + rest, d) == (if f == [] then [] else [f]) + Tokens(rest, d)
    ensures Tokens(f, d) == if f == [] then [] else [f]
  {
    NoToken(d);
    if f == [] {
      assert f + [d] + rest == [d] + rest && ([d] + rest)[1..] == rest;
      assert NextToken([d] + rest, d) == NextToken(rest, d);
    } else {
      TokenOfField(f, d, rest);
    }
  }

  /** The tokens of a joined list of fields are its non-empty ones, wherever the empty ones were. */
  lemma {:induction false} TokensOfFields(fields: seq<Chars>, d: byte)
    requires forall f :: f in fields ==> d !in f
    ensures Tokens(Join(fields, d), d) == NonEmpty(fields)
  {
    if fields == [] {
      NoToken(d);
    } else {
      var later := fields[1..];
      FirstField(fields[0], d, Join(later, d));
      if later != [] { TokensOfFields(later, d); }
    }
  }

  // ------------------------------------------------------------------ addresses

  /** inet_ntop. */
  function Ntop(a: Address): Chars {
    Digits(a.a) + [DOT] + Digits(a.b) + [DOT] + Digits(a.c) + [DOT] + Digits(a.d)
  }

  /** A decimal octet: digits, no leading zero, at most 255. */
  function Octet(s: Chars): Option<byte> {
    if s == [] || (exists c :: c in s && !IsDigit(c)) || (|s| > 1 && s[0] == ZERO) then None
    else
      var v := ScanDigits(s, 0).0;
      if v <= 255 then Some(v) else None
  }

  function After(s: Chars, d: byte): Chars {
    var t := Before(s, d);
    if |t| < |s| then s[|t| + 1..] else []
  }

  /** inet_pton: exactly four octets between dots. */
  function Pton(s: Chars): Option<(byte, byte, byte, byte)> {
    var s1 := After(s, DOT);
    var s2 := After(s1, DOT);
    var s3 := After(s2, DOT);
    match (Octet(Before(s, DOT)), Octet(Before(s1, DOT)), Octet(Before(s2, DOT)), Octet(s3))
    case (Some(a), Some(b), Some(c), Some(d)) => Some((a, b, c, d))
    case _ => None
  }

  lemma OctetOfDigits(b: byte)
    ensures Octet(Digits(b)) == Some(b)
  {
    ScanDigitsOfDigits(b, []);
    assert Digits(b) + [] == Digits(b);
  }

  /** Digits without a leading zero are how their value is printed. */
  lemma {:induction false} DigitsOfScan(s: Chars)
    requires s != [] && (forall c :: c in s ==> IsDigit(c)) && (|s| > 1 ==> s[0] != ZERO)
    ensures Digits(ScanDigits(s, 0).0) == s
    decreases |s|
  {
    var front, last := s[..|s| - 1], s[|s| - 1];
    var v := ScanDigits(front, 0).0;
    assert last in s;
    ScanDigitsSnoc(front, last, 0, []);
    assert front + [last] + [] == s && front + [last] == s;
    if |s| > 1 {
      DigitsOfScan(front);
      NoLeadingZero(v, front);
      DigitsSnoc(v, last);
    } else {
      assert front == [] && v == 0;
    }
  }

  lemma DigitsSnoc(v: nat, c: byte)
    requires v > 0 && IsDigit(c)
    ensures Digits(10 * v + (c - ZERO)) == Digits(v) + [c]
  {
    assert (10 * v + (c - ZERO)) / 10 == v;
  }

  lemma NoLeadingZero(v: nat, s: Chars)
    requires Digits(v) == s && s[0] != ZERO
    ensures v > 0
  {
  }

  /** An octet is exactly what is printed for a byte. */
  lemma OctetExactly(s: Chars, b: byte)
    ensures Octet(s) == Some(b) <==> s == Digits(b)
  {
    OctetOfDigits(b);
    if Octet(s) == Some(b) { DigitsOfScan(s); }
  }

  lemma SplitAt(s: Chars, d: byte)
    ensures d in s ==> s == Before(s, d) + [d] + After(s, d)
    ensures d !in s ==> Before(s, d) == s && After(s, d) == []
  {
  }

  /** What `inet_pton` reads is exactly what `inet_ntop` prints. */
  lemma PtonExactly(s: Chars, a: byte, b: byte, c: byte, d: byte)
    ensures Pton(s) == Some((a, b, c, d)) <==> s == Ntop(Address(a, b, c, d, 0))
  {
    PtonOfNtop(Address(a, b, c, d, 0));
    if Pton(s) == Some((a, b, c, d)) {
      var s1 := After(s, DOT);
      var s2 := After(s1, DOT);
      var s3 := After(s2, DOT);
      OctetExactly(Before(s, DOT), a);
      OctetExactly(Before(s1, DOT), b);
      OctetExactly(Before(s2, DOT), c);
      OctetExactly(s3, d);
      NotEmpty(s1, s2, s3, b, c);
      SplitAt(s, DOT);
      SplitAt(s1, DOT);
      SplitAt(s2, DOT);
      Joined(s, s1, s2, s3, a, b, c, d);
    }
  }

  /** None of the rests is empty, so each point was there. */
  lemma NotEmpty(s1: Chars, s2: Chars, s3: Chars, b: byte, c: byte)
    requires s3 != [] && s3 == After(s2, DOT) && s2 == After(s1, DOT)
    ensures s1 != [] && s2 != []
  {
  }

  lemma Joined(s: Chars, s1: Chars, s2: Chars, s3: Chars, a: byte, b: byte, c: byte, d: byte)
    requires s == Digits(a) + [DOT] + s1 && s1 == Digits(b) + [DOT] + s2 && s2 == Digits(c) + [DOT] + s3
    requires s3 == Digits(d)
    ensures s == Ntop(Address(a, b, c, d, 0))
  {
  }

  lemma AfterDelim(s: Chars, d: byte, rest: Chars)
    requires d !in s
    ensures Before(s + [d] + rest, d) == s && After(s + [d] + rest, d) == rest
  {
    BeforeDelim(s, d, rest);
    assert (s + [d] + rest)[|s| + 1..] == rest;
  }

  lemma PtonOfNtop(a: Address)
    ensures Pton(Ntop(a)) == Some((a.a, a.b, a.c, a.d))
  {
    var t3 := Digits(a.d);
    var t2 := Digits(a.c) + [DOT] + t3;
    var t1 := Digits(a.b) + [DOT] + t2;
    assert Ntop(a) == Digits(a.a) + [DOT] + t1;
    AfterDelim(Digits(a.a), DOT, t1);
    AfterDelim(Digits(a.b), DOT, t2);
    AfterDelim(Digits(a.c), DOT, t3);
    OctetOfDigits(a.a);
    OctetOfDigits(a.b);
    OctetOfDigits(a.c);
    OctetOfDigits(a.d);
  }

  lemma NtopChars(a: Address)
    ensures forall c :: c in Ntop(a) ==> IsDigit(c) || c == DOT
  {
  }

  /** ip:port, as both event formats print it. */
  function AddressText(a: Address): Chars {
    Ntop(a) + [COLON] + Digits(a.port)
  }

  /** The four octets in order, points between them, a colon and the port. */
  lemma AddressLayout(a: Address)
    ensures AddressText(a) == Digits(a.a) + [46] + Digits(a.b) + [46] + Digits(a.c) + [46] + Digits(a.d)
                              + [58] + Digits(a.port)
  {
  }

  const NO_ADDRESS := Address(0, 0, 0, 0, 0)

  /** How both decoders read it: nothing without a colon; an unreadable ip leaves zeros; the
   *  port is cut to 16 bits. */
  function ParseAddress(token: Chars): Address {
    if COLON !in token then NO_ADDRESS
    else Endpoint(Pton(Before(token, COLON)), Atoi(After(token, COLON)))
  }

  function Endpoint(ip: Option<(byte, byte, byte, byte)>, port: int): Address {
    match ip
    case None => NO_ADDRESS.(port := port % 0x1_0000)
    case Some((a, b, c, d)) => Address(a, b, c, d, port % 0x1_0000)
  }

  lemma AddressChars(a: Address)
    ensures AddressText(a) != [] && BAR !in AddressText(a) && 0 !in AddressText(a)
    ensures COLON !in Ntop(a) && COLON in AddressText(a)
  {
    NtopChars(a);
    assert forall c :: c in AddressText(a) ==> IsDigit(c) || c == DOT || c == COLON;
    assert AddressText(a)[|Ntop(a)|] == COLON;
  }

  lemma ParsePieces(ip: Chars, port: Chars)
    requires COLON !in ip
    ensures ParseAddress(ip + [COLON] + port) == Endpoint(Pton(ip), Atoi(port))
  {
    AfterDelim(ip, COLON, port);
    assert (ip + [COLON] + port)[|ip|] == COLON;
  }

  lemma EndpointOf(ip: Option<(byte, byte, byte, byte)>, port: int, a: Address)
    requires ip == Some((a.a, a.b, a.c, a.d)) && port == a.port
    ensures Endpoint(ip, port) == a
  {
  }

  lemma ParseWhole(ip: Chars, port: Chars, a: Address)
    requires COLON !in ip && Pton(ip) == Some((a.a, a.b, a.c, a.d)) && Atoi(port) == a.port
    ensures ParseAddress(ip + [COLON] + port) == a
  {
    ParsePieces(ip, port);
    EndpointOf(Pton(ip), Atoi(port), a);
  }

  /** An address that cannot be read is 0.0.0.0, with the port if there is a colon. */
  lemma UnreadableAddress(ip: Chars, port: Chars)
    requires COLON !in ip && Pton(ip) == None
    ensures ParseAddress(ip) == Address(0, 0, 0, 0, 0)
    ensures ParseAddress(ip + [58] + port) == Address(0, 0, 0, 0, Atoi(port) % 65536)
  {
    ParsePieces(ip, port);
  }

  lemma AddressRoundTrip(a: Address)
    ensures ParseAddress(AddressText(a)) == a
  {
    AddressChars(a);
    PtonOfNtop(a);
    AtoiOfDecimal(a.port);
    ParseWhole(Ntop(a), Digits(a.port), a);
  }
}
