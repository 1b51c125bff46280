/**
  Short frames. Every frame the parser takes has at most 87 bytes, and within 696 bits the checksum detects every error
  of one, two or three flipped bits: the powers of x up to there are pairwise different modulo the generator.
 */
module ShortFrames {
  import opened Crc16
  import opened Sequences

  /** One zero bit enters the register. */
  function Turn(w: bv16): bv16 {
    if w & 0x8000 != 0 then (w << 1) ^ 0x1021 else w << 1
  }

  function Turns(w: bv16, n: nat): bv16
    decreases n
  {
    if n == 0 then w else Turns(Turn(w), n - 1)
  }

  /** None of the next n zero bits brings the register to the power x^15. */
  predicate Avoids(w: bv16, n: nat)
    decreases n
  {
    n == 0 || (Turn(w) != 0x8000 && Avoids(Turn(w), n - 1))
  }

  predicate Reaches(w: bv16, n: nat, v: bv16) {
    Avoids(w, n) && Turns(w, n) == v
  }

  /** The generator's low part, which is a single one in the register, after k zero bytes. */
  function AfterBytes(k: nat): bv16 {
    Turns(0x1021, 8 * k)
  }

  /** Neither byte of the word is zero. */
  predicate BothBytes(w: bv16) {
    w & 0xFF00 != 0 && w & 0x00FF != 0
  }

  /** The value after k zero bytes, reached without passing x^15; and up to there no half of the register is zero. */
  ghost predicate Known(k: nat, v: bv16) {
    && Reaches(0x1021, 8 * k, v)
    && forall j: nat :: j <= k ==> BothBytes(AfterBytes(j))
  }

  lemma {:induction false} TurnsJoin(w: bv16, m: nat, n: nat)
    requires Avoids(w, m) && Avoids(Turns(w, m), n)
    ensures Avoids(w, m + n) && Turns(w, m + n) == Turns(Turns(w, m), n)
    decreases m
  {
    if m > 0 {
      hide Turn;
      TurnsJoin(Turn(w), m - 1, n);
      assert m + n - 1 == m - 1 + n;
    }
  }

  /** Eight zero bits, none of which leads to x^15. */
  predicate ZeroByte(v: bv16, u: bv16) {
    var v1 := Turn(v);
    var v2 := Turn(v1);
    var v3 := Turn(v2);
    var v4 := Turn(v3);
    var v5 := Turn(v4);
    var v6 := Turn(v5);
    var v7 := Turn(v6);
    && v1 != 0x8000 && v2 != 0x8000 && v3 != 0x8000 && v4 != 0x8000
    && v5 != 0x8000 && v6 != 0x8000 && v7 != 0x8000 && u != 0x8000 && Turn(v7) == u
  }

  lemma FourTurns(v: bv16)
    ensures var v4 := Turn(Turn(Turn(Turn(v))));
      && Turns(v, 4) == v4
      && (Avoids(v, 4) <==>
            Turn(v) != 0x8000 && Turn(Turn(v)) != 0x8000 && Turn(Turn(Turn(v))) != 0x8000 && v4 != 0x8000)
  {
    hide Turn;
    var v1 := Turn(v);
    var v2 := Turn(v1);
    var v3 := Turn(v2);
    assert Turns(Turn(v3), 0) == Turn(v3) && Avoids(Turn(v3), 0);
    assert Turns(v3, 1) == Turn(v3);
    assert Turns(v2, 2) == Turn(v3);
    assert Turns(v1, 3) == Turn(v3);
  }

  lemma ZeroByteReaches(v: bv16, u: bv16)
    requires ZeroByte(v, u)
    ensures Reaches(v, 8, u)
  {
    hide Turn, Turns, Avoids;
    FourTurns(v);
    FourTurns(Turns(v, 4));
    TurnsJoin(v, 4, 4);
  }

  /** One zero byte more. */
  lemma NextByte(k: nat, v: bv16, u: bv16)
    requires Known(k, v) && ZeroByte(v, u) && BothBytes(u)
    ensures Known(k + 1, u)
  {
    hide Turns, Avoids, ZeroByte;
    ZeroByteReaches(v, u);
    TurnsJoin(0x1021, 8 * k, 8);
  }

  lemma ZeroBytes0To8()
    ensures Known(8, 0xeb23)
  {
    hide Known;
    KnownAtStart();
    NextByte(0, 0x1021, 0x3331);
    NextByte(1, 0x3331, 0x3730);
    NextByte(2, 0x3730, 0x76b4);
    NextByte(3, 0x76b4, 0xaa51);
    NextByte(4, 0xaa51, 0x45a0);
    NextByte(5, 0x45a0, 0xb861);
    NextByte(6, 0xb861, 0x47d3);
    NextByte(7, 0x47d3, 0xeb23);
  }

  lemma ZeroBytes8To16()
    requires Known(8, 0xeb23)
    ensures Known(16, 0x10e2)
  {
    hide Known;
    NextByte(8, 0xeb23, 0x6f45);
    NextByte(9, 0x6f45, 0xd849);
    NextByte(10, 0xd849, 0x0375);
    NextByte(11, 0x0375, 0x4563);
    NextByte(12, 0x4563, 0x7b61);
    NextByte(13, 0x7b61, 0xaefc);
    NextByte(14, 0xaefc, 0xa824);
    NextByte(15, 0xa824, 0x10e2);
  }

  lemma ZeroBytes16To24()
    requires Known(16, 0x10e2)
    ensures Known(24, 0x45b4)
  {
    hide Known;
    NextByte(16, 0x10e2, 0xf031);
    NextByte(17, 0xf031, 0xde1f);
    NextByte(18, 0xde1f, 0x35b3);
    NextByte(19, 0x35b3, 0xd5f6);
    NextByte(20, 0xd5f6, 0x6dd8);
    NextByte(21, 0x6dd8, 0x650b);
    NextByte(22, 0x650b, 0x3703);
    NextByte(23, 0x3703, 0x45b4);
  }

  lemma ZeroBytes24To32()
    requires Known(24, 0x45b4)
    ensures Known(32, 0x8ddc)
  {
    hide Known;
    NextByte(24, 0x45b4, 0xac61);
    NextByte(25, 0xac61, 0x1566);
    NextByte(26, 0x1566, 0x2494);
    NextByte(27, 0x2494, 0xf0e6);
    NextByte(28, 0xf0e6, 0x091f);
    NextByte(29, 0x091f, 0x8e29);
    NextByte(30, 0x8e29, 0x5946);
    NextByte(31, 0x5946, 0x8ddc);
  }

  lemma ZeroBytes32To40()
    requires Known(32, 0x8ddc)
    ensures Known(40, 0xb8e0)
  {
    hide Known;
    NextByte(32, 0x8ddc, 0x9c25);
    NextByte(33, 0x9c25, 0x6735);
    NextByte(34, 0x6735, 0x2941);
    NextByte(35, 0x2941, 0xf44b);
    NextByte(36, 0xf44b, 0xe49b);
    NextByte(37, 0xe49b, 0x26aa);
    NextByte(38, 0x26aa, 0xeea4);
    NextByte(39, 0xeea4, 0xb8e0);
  }

  lemma ZeroBytes40To48()
    requires Known(40, 0xb8e0)
    ensures Known(48, 0xbd64)
  {
    hide Known;
    NextByte(40, 0xb8e0, 0xc6d3);
    NextByte(41, 0xc6d3, 0x6a8a);
    NextByte(42, 0x6a8a, 0x47ec);
    NextByte(43, 0x47ec, 0xd423);
    NextByte(44, 0xd423, 0xa8f9);
    NextByte(45, 0xa8f9, 0xcde2);
    NextByte(46, 0xcde2, 0xeae1);
    NextByte(47, 0xeae1, 0xbd64);
  }

  lemma ZeroBytes48To56()
    requires Known(48, 0xbd64)
    ensures Known(56, 0x9fe5)
  {
    hide Known;
    NextByte(48, 0xbd64, 0x1276);
    NextByte(49, 0x1276, 0x4473);
    NextByte(50, 0x4473, 0x7b40);
    NextByte(51, 0x7b40, 0x8ffc);
    NextByte(52, 0x8ffc, 0x9c67);
    NextByte(53, 0x9c67, 0x2535);
    NextByte(54, 0x2535, 0x41c7);
    NextByte(55, 0x41c7, 0x9fe5);
  }

  lemma ZeroBytes56To64()
    requires Known(56, 0x9fe5)
    ensures Known(64, 0x78b3)
  {
    hide Known;
    NextByte(56, 0x9fe5, 0x9756);
    NextByte(57, 0x9756, 0xa55e);
    NextByte(58, 0xa55e, 0xbb4f);
    NextByte(59, 0xbb4f, 0x59b0);
    NextByte(60, 0x59b0, 0x7bdc);
    NextByte(61, 0x7bdc, 0x13fc);
    NextByte(62, 0x13fc, 0xde52);
    NextByte(63, 0xde52, 0x78b3);
  }

  lemma ZeroBytes64To72()
    requires Known(64, 0x78b3)
    ensures Known(72, 0x8420)
  {
    hide Known;
    NextByte(64, 0x78b3, 0x4c9f);
    NextByte(65, 0x4c9f, 0x1648);
    NextByte(66, 0x1648, 0x3af7);
    NextByte(67, 0x3af7, 0x6019);
    NextByte(68, 0x6019, 0x75a6);
    NextByte(69, 0x75a6, 0x8832);
    NextByte(70, 0x8832, 0x2280);
    NextByte(71, 0x2280, 0x8420);
  }

  lemma ZeroBytes72To80()
    requires Known(72, 0x8420)
    ensures Known(80, 0x9c1a)
  {
    hide Known;
    NextByte(72, 0x8420, 0xf10c);
    NextByte(73, 0xf10c, 0xf33e);
    NextByte(74, 0xf33e, 0xe17c);
    NextByte(75, 0xe17c, 0x910f);
    NextByte(76, 0x910f, 0x9c98);
    NextByte(77, 0x9c98, 0xda35);
    NextByte(78, 0xda35, 0x5f37);
    NextByte(79, 0x5f37, 0x9c1a);
  }

  lemma ZeroBytes80To87()
    requires Known(80, 0x9c1a)
    ensures Known(87, 0x526f)
  {
    hide Known;
    NextByte(80, 0x9c1a, 0x5835);
    NextByte(81, 0x5835, 0xeefd);
    NextByte(82, 0xeefd, 0xe1e0);
    NextByte(83, 0xe1e0, 0x0d0f);
    NextByte(84, 0x0d0f, 0xdead);
    NextByte(85, 0xdead, 0x87b3);
    NextByte(86, 0x87b3, 0x526f);
  }

  lemma KnownAtStart()
    ensures Known(0, 0x1021)
  {
    forall j: nat | j <= 0 ensures BothBytes(AfterBytes(j)) {
      assert AfterBytes(0) == 0x1021;
    }
  }

  /** 696 zero bits behind a single one never bring the register to x^15, nor whole zero bytes either half to zero. */
  lemma NoReturn()
    ensures Avoids(0x1021, 696)
    ensures forall k: nat :: k <= 87 ==> BothBytes(AfterBytes(k))
  {
    assert Known(87, 0x526f) by {
      hide Known;
      ZeroBytes0To8();
      ZeroBytes8To16();
      ZeroBytes16To24();
      ZeroBytes24To32();
      ZeroBytes32To40();
      ZeroBytes40To48();
      ZeroBytes48To56();
      ZeroBytes56To64();
      ZeroBytes64To72();
      ZeroBytes72To80();
      ZeroBytes80To87();
    }
    hide Avoids, Turns, AfterBytes;
  }

  lemma {:induction false} AvoidsAt(w: bv16, n: nat, k: nat)
    requires Avoids(w, n) && 0 < k <= n
    ensures Turns(w, k) != 0x8000
    decreases k
  {
    hide Turn;
    if k > 1 {
      AvoidsAt(Turn(w), n - 1, k - 1);
    }
  }

  // ---- Words and registers -------------------------------------------------------------------------------

  lemma WordLength(w: bv16, r: seq<bool>)
    requires IsWord(w, r)
    ensures |r| == 16
  {}

  lemma {:induction false} TurnsWord(w: bv16, r: seq<bool>, n: nat)
    requires IsWord(w, r)
    ensures IsWord(Turns(w, n), Feed(r, Zeros(n)))
    decreases n
  {
    hide IsWord, Step;
    if n > 0 {
      ShiftWord(w, r);
      assert Zeros(n)[1..] == Zeros(n - 1);
      assert |r| == 16 by {
        WordLength(w, r);
      }
      TurnsWord(Turn(w), Step(r, false), n - 1);
    }
  }

  lemma GeneratorWord()
    ensures IsWord(0x1021, Taps()) && Step(Zeros(16), true) == Taps()
  {
    hide WordBit, Mask;
    forall j: nat | j < 16 ensures Taps()[j] == WordBit(0x1021, Mask(j)) {
      GeneratorBit(j);
    }
    assert Shifted(Zeros(16)) == Zeros(16);
  }

  /** A single one and n zeros behind it, fed into the zero register. */
  lemma SingleBit(n: nat)
    ensures IsWord(Turns(0x1021, n), Feed(Zeros(16), [true] + Zeros(n)))
  {
    hide IsWord, Turns;
    GeneratorWord();
    TurnsWord(0x1021, Taps(), n);
    FeedAppend(Zeros(16), [true], Zeros(n));
    FeedOne(Zeros(16), true);
  }

  lemma TopWord()
    ensures IsWord(0x8000, [true] + Zeros(15))
  {}

  lemma OneShiftsIn(r: seq<bool>)
    requires |r| == 16 && !r[0]
    ensures Step(r, true)[15]
  {}

  /** A one clears the register only from x^15. */
  lemma ClearedByOne(r: seq<bool>)
    requires |r| == 16 && Step(r, true) == Zeros(16)
    ensures r == [true] + Zeros(15)
  {
    if !r[0] {
      OneShiftsIn(r);
      assert false;
    }
    forall j | 1 <= j < 16 ensures !r[j] {
      assert Shifted(r)[j - 1] == r[j];
    }
  }

  /** Two ones less than 696 positions apart leave the register nonzero. */
  lemma TwoBitsNonzero(n: nat)
    requires n < 695
    ensures Feed(Zeros(16), [true] + Zeros(n) + [true]) != Zeros(16)
  {
    hide IsWord, Turns, Step, Feed, Avoids;
    var r := Feed(Zeros(16), [true] + Zeros(n));
    FeedAppend(Zeros(16), [true] + Zeros(n), [true]);
    FeedOne(r, true);
    if Step(r, true) == Zeros(16) {
      ClearedByOne(r);
      SingleBit(n);
      TopWord();
      SameWord(Turns(0x1021, n), 0x8000, r);
      NoReturn();
      NotTop(n);
      assert false;
    }
  }

  lemma NotTop(n: nat)
    requires n < 695 && Avoids(0x1021, 696)
    ensures Turns(0x1021, n) != 0x8000
  {
    if n > 0 {
      AvoidsAt(0x1021, 696, n);
    }
  }

  // ---- Few flipped bits ----------------------------------------------------------------------------------

  lemma EqualFirst(a: seq<bool>, b: seq<bool>, k: nat)
    requires |a| == |b| && k + 1 < |a| && a[0] == b[0] && Xor(a[1..], b[1..])[..k + 1] == Zeros(k) + [true]
    ensures Xor(a, b)[..k + 2] == Zeros(k + 1) + [true]
  {
    assert Xor(a, b)[..k + 2] == [false] + Xor(a[1..], b[1..])[..k + 1];
    assert Zeros(k + 1) == [false] + Zeros(k);
  }

  /** The first of the differences. */
  lemma {:induction false} Difference(a: seq<bool>, b: seq<bool>) returns (i: nat)
    requires |a| == |b| && Distance(a, b) > 0
    ensures i < |a| && Xor(a, b)[..i + 1] == Zeros(i) + [true]
    ensures Distance(a[i + 1..], b[i + 1..]) == Distance(a, b) - 1
    decreases |a|
  {
    if a[0] != b[0] {
      i := 0;
    } else {
      var k := Difference(a[1..], b[1..]);
      i := k + 1;
      EqualFirst(a, b, k);
      SuffixOfSuffix(a, 1, k + 1);
      SuffixOfSuffix(b, 1, k + 1);
      hide Xor, Zeros;
    }
  }

  lemma {:induction false} NoDifference(a: seq<bool>, b: seq<bool>)
    requires |a| == |b| && Distance(a, b) == 0
    ensures Xor(a, b) == Zeros(|a|)
    decreases |a|
  {
    if a != [] {
      NoDifference(a[1..], b[1..]);
      assert Xor(a, b)[1..] == Xor(a[1..], b[1..]);
    }
  }

  /** Two differences: zeros, a one, zeros, a one, zeros. */
  lemma TwoDifferences(a: seq<bool>, b: seq<bool>) returns (i: nat, n: nat, rest: nat)
    requires |a| == |b| && Distance(a, b) == 2
    ensures i + n + rest + 2 == |a|
    ensures Xor(a, b) == Zeros(i) + ([true] + Zeros(n) + [true]) + Zeros(rest)
  {
    i := Difference(a, b);
    n := Difference(a[i + 1..], b[i + 1..]);
    rest := |a| - i - n - 2;
    hide Distance, Xor;
    RestDiffers(a, b, i);
    RestDiffers(a[i + 1..], b[i + 1..], n);
    NoDifference(a[i + 1..][n + 1..], b[i + 1..][n + 1..]);
    Regroup(Zeros(i), Zeros(n), Zeros(rest));
  }

  lemma RestDiffers(a: seq<bool>, b: seq<bool>, i: nat)
    requires |a| == |b| && i < |a|
    ensures Xor(a, b) == Xor(a, b)[..i + 1] + Xor(a[i + 1..], b[i + 1..])
  {}

  lemma Regroup(x: seq<bool>, y: seq<bool>, z: seq<bool>)
    ensures x + [true] + (y + [true] + z) == x + ([true] + y + [true]) + z
  {}

  /** Two frames of at most 87 bytes that differ in exactly two bits never both pass. */
  lemma TwoErrorsDetected(f: seq<byte>, g: seq<byte>)
    requires 2 <= |f| == |g| <= 87 && Distance(Bits(f), Bits(g)) == 2
    ensures !(Passes(f) && Passes(g))
  {
    var i, n, rest := TwoDifferences(Bits(f), Bits(g));
    var two := [true] + Zeros(n) + [true];
    ChecksumAffine(f, g);
    PassesIffZero(f);
    PassesIffZero(g);
    hide Feed, Passes, Register, Bits, Distance;
    FeedAppend(Zeros(16), Zeros(i) + two, Zeros(rest));
    FeedAppend(Zeros(16), Zeros(i), two);
    ZerosKeepZero(Zeros(16), i);
    TwoBitsNonzero(n);
    ZerosKeepZero(Feed(Zeros(16), two), rest);
    assert Xor(Zeros(16), Zeros(16)) == Zeros(16);
  }

  /** One, two or three flipped bits in a frame of a length the parser takes are always detected. */
  lemma FewErrorsDetected(f: seq<byte>, g: seq<byte>)
    requires 2 <= |f| == |g| <= 87 && 1 <= Distance(Bits(f), Bits(g)) <= 3
    ensures !(Passes(f) && Passes(g))
  {
    if Distance(Bits(f), Bits(g)) == 2 {
      TwoErrorsDetected(f, g);
    } else {
      OddErrorsDetected(f, g);
    }
  }

  // ---- Both bounds are tight -----------------------------------------------------------------------------

  function Ones(bits: seq<bool>): nat {
    if bits == [] then 0 else (if bits[0] then 1 else 0) + Ones(bits[1..])
  }

  lemma {:induction false} OnesAppend(a: seq<bool>, b: seq<bool>)
    ensures Ones(a + b) == Ones(a) + Ones(b)
    decreases |a|
  {
    if a == [] {
      assert a + b == b;
    } else {
      OnesAppend(a[1..], b);
      assert (a + b)[1..] == a[1..] + b;
    }
  }

  lemma {:induction false} OnesZeros(n: nat)
    ensures Ones(Zeros(n)) == 0
    decreases n
  {
    if n > 0 {
      assert Zeros(n)[1..] == Zeros(n - 1);
      OnesZeros(n - 1);
    }
  }

  lemma {:induction false} DistanceXor(a: seq<bool>, d: seq<bool>)
    requires |a| == |d|
    ensures Distance(a, Xor(a, d)) == Ones(d)
    decreases |a|
  {
    if a != [] {
      DistanceXor(a[1..], d[1..]);
      assert Xor(a, d)[1..] == Xor(a[1..], d[1..]);
    }
  }

  lemma OnesTaps()
    ensures Ones(Taps()) == 3
  {
    assert Taps() == Zeros(3) + [true] + (Zeros(6) + [true]) + (Zeros(4) + [true]);
    hide Ones;
    OneBehind(3);
    OneBehind(6);
    OneBehind(4);
    OnesAppend(Zeros(3) + [true], Zeros(6) + [true]);
    OnesAppend(Zeros(3) + [true] + (Zeros(6) + [true]), Zeros(4) + [true]);
  }

  lemma OneBehind(n: nat)
    ensures Ones(Zeros(n) + [true]) == 1
  {
    OnesAppend(Zeros(n), [true]);
    OnesZeros(n);
    assert Ones([true]) == 1;
  }

  /** The generator itself, shifted: zeros in front of it and behind it. */
  function Shift(i: nat, n: nat): (d: seq<bool>)
    ensures |d| == i + 17 + n
  {
    Zeros(i) + ([true] + Taps()) + Zeros(n)
  }

  lemma ShiftBits(i: nat, n: nat, j: nat)
    requires j < i + 17 + n
    ensures Shift(i, n)[j] <==> j in {i, i + 4, i + 11, i + 16}
  {
    if i < j < i + 17 {
      assert Shift(i, n)[j] == Taps()[j - i - 1];
    }
  }

  lemma ShiftOnes(i: nat, n: nat)
    ensures Ones(Shift(i, n)) == 4
  {
    hide Ones, Zeros, Taps;
    OnesAppend(Zeros(i) + ([true] + Taps()), Zeros(n));
    OnesAppend(Zeros(i), [true] + Taps());
    OnesAppend([true], Taps());
    OnesZeros(i);
    OnesZeros(n);
    OnesTaps();
    OneBehind(0);
    assert Zeros(0) + [true] == [true] by {
      NoZeros();
    }
  }

  lemma NoZeros()
    ensures Zeros(0) == []
  {}

  /** A multiple of the generator leaves no trace in the register. */
  lemma GeneratorInvisible(i: nat, n: nat)
    ensures Feed(Zeros(16), Shift(i, n)) == Zeros(16)
  {
    hide Feed, Step, Zeros, Taps;
    FeedAppend(Zeros(16), Zeros(i) + ([true] + Taps()), Zeros(n));
    FeedAppend(Zeros(16), Zeros(i), [true] + Taps());
    FeedAppend(Zeros(16), [true], Taps());
    FeedOne(Zeros(16), true);
    GeneratorWord();
    FeedMix(Taps(), Taps());
    TapsCancel();
    ZerosKeepZero(Zeros(16), 16);
    ZerosKeepZero(Zeros(16), i);
    ZerosKeepZero(Zeros(16), n);
  }

  lemma TapsCancel()
    ensures Mix(Taps(), Taps()) == Zeros(16)
  {}

  /** The bytes with the given bits. */
  function BytesOf(bits: seq<bool>): (r: seq<byte>)
    requires |bits| % 8 == 0
    ensures |r| == |bits| / 8
  {
    if bits == [] then [] else [ByteOf(bits[..8])] + BytesOf(bits[8..])
  }

  lemma {:induction false} BytesOfBits(bits: seq<bool>)
    requires |bits| % 8 == 0
    ensures Bits(BytesOf(bits)) == bits
    decreases |bits|
  {
    hide ByteOf, ByteBits;
    if bits != [] {
      ByteOfBits(bits[..8]);
      BytesOfBits(bits[8..]);
      assert BytesOf(bits)[1..] == BytesOf(bits[8..]);
    }
  }

  /**
    Four flipped bits, and a burst of seventeen, are not always seen: to every passing frame and every place in it there
    is another passing frame that differs by exactly the generator, shifted there.
   */
  lemma GeneratorUndetected(f: seq<byte>, i: nat) returns (g: seq<byte>)
    requires Passes(f) && i + 17 <= 8 * |f|
    ensures |g| == |f| && Passes(g) && Distance(Bits(f), Bits(g)) == 4
    ensures forall j :: 0 <= j < 8 * |f| ==> (Bits(f)[j] != Bits(g)[j] <==> j in {i, i + 4, i + 11, i + 16})
  {
    hide Passes, Bits, Feed, Shift, Ones, Register, BytesOf;
    var n := 8 * |f| - i - 17;
    var d := Shift(i, n);
    var bits := Xor(Bits(f), d);
    g := BytesOf(bits);
    BytesOfBits(bits);
    DistanceXor(Bits(f), d);
    ShiftOnes(i, n);
    XorTwice(Bits(f), d);
    ChecksumAffine(f, g);
    GeneratorInvisible(i, n);
    PassesIffZero(f);
    PassesIffZero(g);
    XorZero(Register(f), Register(g));
    forall j | 0 <= j < 8 * |f| ensures Bits(f)[j] != Bits(g)[j] <==> j in {i, i + 4, i + 11, i + 16} {
      ShiftBits(i, n, j);
    }
  }

  lemma XorTwice(a: seq<bool>, d: seq<bool>)
    requires |a| == |d|
    ensures Xor(a, Xor(a, d)) == d
  {}

  lemma XorZero(a: seq<bool>, b: seq<bool>)
    requires |a| == |b| == 16 && Xor(a, b) == Zeros(16)
    ensures a == b
  {
    forall j | 0 <= j < 16 ensures a[j] == b[j] {
      assert !Xor(a, b)[j];
    }
  }
}
