/**
  The checksum of the telemetry frame: the bit-serial register that `calculate_crc16` computes byte by byte,
  and the error-detection theorems the parser relies on.

  A register is a sequence of 16 bits, most significant first: position j is the coefficient of x^(15 - j).
 */
module Crc16 {
  import opened Sequences

  type byte = bv8

  // ---- Words and bytes as bits ---------------------------------------------------------------------------

  predicate WordBit(w: bv16, mask: bv16) {
    w & mask != 0
  }

  predicate ByteBit(b: byte, mask: byte) {
    b & mask != 0
  }

  predicate OneBit(mask: bv16) {
    mask in {0x8000, 0x4000, 0x2000, 0x1000, 0x0800, 0x0400, 0x0200, 0x0100,
             0x0080, 0x0040, 0x0020, 0x0010, 0x0008, 0x0004, 0x0002, 0x0001}
  }

  /** The mask of position j of a word; of a byte. */
  function Mask(j: nat): (m: bv16)
    requires j < 16
    ensures OneBit(m)
  {
    if j == 0 then 0x8000 else if j == 1 then 0x4000 else if j == 2 then 0x2000 else if j == 3 then 0x1000 else
    if j == 4 then 0x0800 else if j == 5 then 0x0400 else if j == 6 then 0x0200 else if j == 7 then 0x0100 else
    if j == 8 then 0x0080 else if j == 9 then 0x0040 else if j == 10 then 0x0020 else if j == 11 then 0x0010 else
    if j == 12 then 0x0008 else if j == 13 then 0x0004 else if j == 14 then 0x0002 else 0x0001
  }

  function ByteMask(j: nat): byte
    requires j < 8
  {
    if j == 0 then 0x80 else if j == 1 then 0x40 else if j == 2 then 0x20 else if j == 3 then 0x10 else
    if j == 4 then 0x08 else if j == 5 then 0x04 else if j == 6 then 0x02 else 0x01
  }

  /** The bits of a 16-bit word, most significant first. */
  predicate IsWord(w: bv16, r: seq<bool>) {
    && |r| == 16
    && forall j :: 0 <= j < 16 ==> r[j] == WordBit(w, Mask(j))
  }

  /** The bits of a byte, most significant first. */
  function ByteBits(b: byte): (r: seq<bool>)
    ensures |r| == 8
  {
    seq(8, j requires 0 <= j < 8 => ByteBit(b, ByteMask(j)))
  }

  /** The bits of a message, in transmission order. */
  function Bits(data: seq<byte>): (r: seq<bool>)
    ensures |r| == 8 * |data|
  {
    if data == [] then [] else ByteBits(data[0]) + Bits(data[1..])
  }

  lemma SameRegister(w: bv16, r: seq<bool>, s: seq<bool>)
    requires IsWord(w, r) && IsWord(w, s)
    ensures r == s
  {}

  /** Two words agree on the bits of a mask. */
  predicate Agree(w: bv16, v: bv16, m: bv16) {
    w & m == v & m
  }

  lemma AgreeOnBit(w: bv16, v: bv16, m: bv16)
    requires OneBit(m) && WordBit(w, m) == WordBit(v, m)
    ensures Agree(w, v, m)
  {}

  lemma AgreeOnAll(w: bv16, v: bv16)
    requires Agree(w, v, 0x8000) && Agree(w, v, 0x4000) && Agree(w, v, 0x2000) && Agree(w, v, 0x1000)
    requires Agree(w, v, 0x0800) && Agree(w, v, 0x0400) && Agree(w, v, 0x0200) && Agree(w, v, 0x0100)
    requires Agree(w, v, 0x0080) && Agree(w, v, 0x0040) && Agree(w, v, 0x0020) && Agree(w, v, 0x0010)
    requires Agree(w, v, 0x0008) && Agree(w, v, 0x0004) && Agree(w, v, 0x0002) && Agree(w, v, 0x0001)
    ensures w == v
  {}

  lemma BitsFixWord(w: bv16, v: bv16)
    requires forall j :: 0 <= j < 16 ==> WordBit(w, Mask(j)) == WordBit(v, Mask(j))
    ensures w == v
  {
    hide WordBit, Mask, OneBit, Agree;
    forall j: nat | j < 16 ensures Agree(w, v, Mask(j)) {
      AgreeOnBit(w, v, Mask(j));
    }
    MaskTable();
    AgreeOnAll(w, v);
  }

  lemma MaskTable()
    ensures Mask(0) == 0x8000 && Mask(1) == 0x4000 && Mask(2) == 0x2000 && Mask(3) == 0x1000
    ensures Mask(4) == 0x0800 && Mask(5) == 0x0400 && Mask(6) == 0x0200 && Mask(7) == 0x0100
    ensures Mask(8) == 0x0080 && Mask(9) == 0x0040 && Mask(10) == 0x0020 && Mask(11) == 0x0010
    ensures Mask(12) == 0x0008 && Mask(13) == 0x0004 && Mask(14) == 0x0002 && Mask(15) == 0x0001
  {}

  lemma SameWord(w: bv16, v: bv16, r: seq<bool>)
    requires IsWord(w, r) && IsWord(v, r)
    ensures w == v
  {
    hide WordBit, Mask;
    BitsFixWord(w, v);
  }

  lemma BitsFixByte(b: byte, c: byte)
    requires forall j :: 0 <= j < 8 ==> ByteBit(b, ByteMask(j)) == ByteBit(c, ByteMask(j))
    ensures b == c
  {
    assert ByteBit(b, 0x80) == ByteBit(c, 0x80) by { assert ByteMask(0) == 0x80; }
    assert ByteBit(b, 0x40) == ByteBit(c, 0x40) by { assert ByteMask(1) == 0x40; }
    assert ByteBit(b, 0x20) == ByteBit(c, 0x20) by { assert ByteMask(2) == 0x20; }
    assert ByteBit(b, 0x10) == ByteBit(c, 0x10) by { assert ByteMask(3) == 0x10; }
    assert ByteBit(b, 0x08) == ByteBit(c, 0x08) by { assert ByteMask(4) == 0x08; }
    assert ByteBit(b, 0x04) == ByteBit(c, 0x04) by { assert ByteMask(5) == 0x04; }
    assert ByteBit(b, 0x02) == ByteBit(c, 0x02) by { assert ByteMask(6) == 0x02; }
    assert ByteBit(b, 0x01) == ByteBit(c, 0x01) by { assert ByteMask(7) == 0x01; }
  }

  lemma SameByte(b: byte, c: byte)
    requires ByteBits(b) == ByteBits(c)
    ensures b == c
  {
    hide ByteBit, ByteMask;
    forall j | 0 <= j < 8 ensures ByteBit(b, ByteMask(j)) == ByteBit(c, ByteMask(j)) {
      assert ByteBits(b)[j] == ByteBits(c)[j];
    }
    BitsFixByte(b, c);
  }

  lemma WordOfBytesBit(hi: byte, lo: byte, j: nat)
    requires j < 16
    ensures WordBit(((hi as bv16) << 8) | (lo as bv16), Mask(j))
      == if j < 8 then ByteBit(hi, ByteMask(j)) else ByteBit(lo, ByteMask(j - 8))
  {}

  /** Two bytes read as a big-endian word. */
  lemma WordOfBytes(hi: byte, lo: byte)
    ensures IsWord(((hi as bv16) << 8) | (lo as bv16), ByteBits(hi) + ByteBits(lo))
  {
    hide WordBit, ByteBit, Mask, ByteMask;
    forall j: nat | j < 16
      ensures WordBit(((hi as bv16) << 8) | (lo as bv16), Mask(j)) == (ByteBits(hi) + ByteBits(lo))[j]
    {
      WordOfBytesBit(hi, lo, j);
    }
  }

  lemma BytesOfWordBit(w: bv16, j: nat)
    requires j < 16
    ensures WordBit(w, Mask(j))
      == if j < 8 then ByteBit(((w >> 8) & 0xFF) as byte, ByteMask(j)) else ByteBit((w & 0xFF) as byte, ByteMask(j - 8))
  {}

  /** The high and the low byte of a word. */
  lemma BytesOfWord(w: bv16)
    ensures IsWord(w, ByteBits(((w >> 8) & 0xFF) as byte) + ByteBits((w & 0xFF) as byte))
  {
    hide WordBit, ByteBit, Mask, ByteMask;
    forall j: nat | j < 16
      ensures WordBit(w, Mask(j)) == (ByteBits(((w >> 8) & 0xFF) as byte) + ByteBits((w & 0xFF) as byte))[j]
    {
      BytesOfWordBit(w, j);
    }
  }

  lemma {:induction false} BitsAppend(a: seq<byte>, b: seq<byte>)
    ensures Bits(a + b) == Bits(a) + Bits(b)
  {
    if a == [] {
      assert a + b == b;
    } else {
      hide ByteBits;
      BitsAppend(a[1..], b);
      assert (a + b)[1..] == a[1..] + b;
      Associative(ByteBits(a[0]), Bits(a[1..]), Bits(b));
    }
  }

  // ---- Exclusive or --------------------------------------------------------------------------------------

  function Xor(a: seq<bool>, b: seq<bool>): (r: seq<bool>)
    requires |a| == |b|
    ensures |r| == |a|
    ensures forall j :: 0 <= j < |r| ==> r[j] == (a[j] != b[j])
  {
    seq(|a|, j requires 0 <= j < |a| => a[j] != b[j])
  }

  function Zeros(n: nat): (r: seq<bool>)
    ensures |r| == n && forall j :: 0 <= j < n ==> !r[j]
  {
    seq(n, _ => false)
  }

  lemma XorBit(w: bv16, v: bv16, m: bv16)
    requires OneBit(m)
    ensures WordBit(w ^ v, m) == (WordBit(w, m) != WordBit(v, m))
  {}

  lemma XorWord(w: bv16, v: bv16, a: seq<bool>, b: seq<bool>)
    requires IsWord(w, a) && IsWord(v, b)
    ensures IsWord(w ^ v, Xor(a, b))
  {
    hide WordBit, Mask;
    forall j: nat | j < 16 ensures Xor(a, b)[j] == WordBit(w ^ v, Mask(j)) {
      XorBit(w, v, Mask(j));
    }
  }

  // ---- The register --------------------------------------------------------------------------------------

  /** The exponents below 16 of the generator x^16 + x^12 + x^5 + 1 (section 2 of ITU-T V.41), as positions. */
  predicate Tap(j: int) {
    j == 3 || j == 10 || j == 15
  }

  function Taps(): (r: seq<bool>)
    ensures |r| == 16 && forall j :: 0 <= j < 16 ==> r[j] == Tap(j)
  {
    seq(16, j => Tap(j))
  }

  function Shifted(r: seq<bool>): (s: seq<bool>)
    requires |r| == 16
    ensures |s| == 16
  {
    r[1..] + [false]
  }

  /** One message bit enters: multiply by x, add the bit at x^16, reduce by the generator. */
  function Step(r: seq<bool>, b: bool): (s: seq<bool>)
    requires |r| == 16
    ensures |s| == 16
  {
    if r[0] != b then Xor(Shifted(r), Taps()) else Shifted(r)
  }

  function Feed(r: seq<bool>, bits: seq<bool>): (s: seq<bool>)
    requires |r| == 16
    ensures |s| == 16
    decreases |bits|
  {
    if |bits| == 0 then r else Feed(Step(r, bits[0]), bits[1..])
  }

  /** The initial value 0xFFFF. */
  function Preset(): (r: seq<bool>)
    ensures |r| == 16 && forall j :: 0 <= j < 16 ==> r[j]
  {
    seq(16, _ => true)
  }

  /** The checksum of a message, as a bit-serial register. */
  function Register(data: seq<byte>): (r: seq<bool>)
    ensures |r| == 16
  {
    Feed(Preset(), Bits(data))
  }

  /** The parser's test: the checksum of all bytes but the last two equals the last two, high byte first. */
  predicate Passes(frame: seq<byte>) {
    && |frame| >= 2
    && Register(frame[..|frame| - 2]) == ByteBits(frame[|frame| - 2]) + ByteBits(frame[|frame| - 1])
  }

  /** Appending the checksum word, high byte first, makes any message pass the test. */
  lemma ChecksumAppended(message: seq<byte>, crc: bv16)
    requires IsWord(crc, Register(message))
    ensures Passes(message + [((crc >> 8) & 0xFF) as byte, (crc & 0xFF) as byte])
  {
    hide ByteBits, IsWord, Register;
    var hi, lo := ((crc >> 8) & 0xFF) as byte, (crc & 0xFF) as byte;
    BytesOfWord(crc);
    SameRegister(crc, Register(message), ByteBits(hi) + ByteBits(lo));
    assert (message + [hi, lo])[..|message|] == message;
  }

  function Bit(b: bool, mask: byte): byte {
    if b then mask else 0
  }

  /** The byte with the given bits. */
  function ByteOf(bits: seq<bool>): byte
    requires |bits| == 8
  {
    Bit(bits[0], 0x80) | Bit(bits[1], 0x40) | Bit(bits[2], 0x20) | Bit(bits[3], 0x10)
      | Bit(bits[4], 0x08) | Bit(bits[5], 0x04) | Bit(bits[6], 0x02) | Bit(bits[7], 0x01)
  }

  lemma ByteOfBit(bits: seq<bool>, j: nat)
    requires |bits| == 8 && j < 8
    ensures ByteBit(ByteOf(bits), ByteMask(j)) == bits[j]
  {}

  lemma ByteOfBits(bits: seq<bool>)
    requires |bits| == 8
    ensures ByteBits(ByteOf(bits)) == bits
  {
    hide ByteOf, ByteBit, ByteMask;
    forall j: nat | j < 8 ensures ByteBit(ByteOf(bits), ByteMask(j)) == bits[j] {
      ByteOfBit(bits, j);
    }
  }

  /** For every message there are two bytes that make it pass. */
  lemma Sealed(message: seq<byte>) returns (end: seq<byte>)
    ensures |end| == 2 && Passes(message + end)
  {
    hide ByteBits, Register, ByteOf;
    var r := Register(message);
    ByteOfBits(r[..8]);
    ByteOfBits(r[8..]);
    end := [ByteOf(r[..8]), ByteOf(r[8..])];
    assert (message + end)[..|message|] == message;
    assert r == r[..8] + r[8..];
  }

  lemma {:induction false} FeedAppend(r: seq<bool>, a: seq<bool>, b: seq<bool>)
    requires |r| == 16
    ensures Feed(r, a + b) == Feed(Feed(r, a), b)
    decreases |a|
  {
    if a == [] {
      assert a + b == b;
    } else {
      FeedAppend(Step(r, a[0]), a[1..], b);
      assert (a + b)[1..] == a[1..] + b;
    }
  }

  // ---- The byte-wise algorithm ---------------------------------------------------------------------------

  /** A register with up to 16 pending message bits already added at its top end. */
  function Mix(r: seq<bool>, rest: seq<bool>): (s: seq<bool>)
    requires |r| == 16 && |rest| <= 16
    ensures |s| == 16
  {
    Xor(r, rest + Zeros(16 - |rest|))
  }

  lemma MixStep(r: seq<bool>, rest: seq<bool>)
    requires |r| == 16 && 0 < |rest| <= 16
    ensures Step(Mix(r, rest), false) == Mix(Step(r, rest[0]), rest[1..])
  {}

  lemma ShiftBit(w: bv16, j: nat)
    requires j < 16
    ensures WordBit(w << 1, Mask(j)) == (j < 15 && WordBit(w, Mask(j + 1)))
  {}

  lemma GeneratorBit(j: nat)
    requires j < 16
    ensures WordBit(0x1021, Mask(j)) == Tap(j)
  {}

  lemma ShiftWord(w: bv16, a: seq<bool>)
    requires IsWord(w, a)
    ensures IsWord(if w & 0x8000 != 0 then (w << 1) ^ 0x1021 else w << 1, Step(a, false))
  {
    assert a[0] == (w & 0x8000 != 0) by {
      assert Mask(0) == 0x8000;
    }
    hide WordBit, Mask;
    forall j: nat | j < 16 ensures Shifted(a)[j] == WordBit(w << 1, Mask(j)) && Taps()[j] == WordBit(0x1021, Mask(j)) {
      ShiftBit(w, j);
      GeneratorBit(j);
    }
    if a[0] {
      XorWord(w << 1, 0x1021, Shifted(a), Taps());
    }
  }

  lemma HighByteBit(b: byte, j: nat)
    requires j < 16
    ensures WordBit((b as bv16) << 8, Mask(j)) == (j < 8 && ByteBit(b, ByteMask(j)))
  {}

  lemma EnterByte(w: bv16, b: byte, r: seq<bool>)
    requires IsWord(w, r)
    ensures IsWord(w ^ ((b as bv16) << 8), Mix(r, ByteBits(b)))
  {
    hide WordBit, Mask, ByteBit, ByteMask;
    var high := ByteBits(b) + Zeros(8);
    forall j: nat | j < 16 ensures high[j] == WordBit((b as bv16) << 8, Mask(j)) {
      HighByteBit(b, j);
    }
    XorWord(w, (b as bv16) << 8, r, high);
  }

  lemma PresetWord()
    ensures IsWord(0xFFFF, Preset())
  {}

  /** `calculate_crc16`: nested byte and bit loops over a 16-bit accumulator. */
  method CalculateCrc16(data: seq<byte>) returns (crc: bv16)
    ensures IsWord(crc, Register(data))
  {
    hide IsWord, ByteBits, Step, WordBit, Mask;
    crc := 0xFFFF;
    PresetWord();
    for k := 0 to |data|
      invariant IsWord(crc, Register(data[..k]))
    {
      ghost var before := Register(data[..k]);
      ghost var bits := ByteBits(data[k]);
      EnterByte(crc, data[k], before);
      crc := crc ^ ((data[k] as bv16) << 8);
      assert bits[0..] == bits;
      for i := 0 to 8
        invariant IsWord(crc, Mix(Feed(before, bits[..i]), bits[i..]))
      {
        ShiftWord(crc, Mix(Feed(before, bits[..i]), bits[i..]));
        MixStep(Feed(before, bits[..i]), bits[i..]);
        FeedAppend(before, bits[..i], [bits[i]]);
        assert bits[..i + 1] == bits[..i] + [bits[i]];
        assert bits[i..][1..] == bits[i + 1..];
        if crc & 0x8000 != 0 {
          crc := (crc << 1) ^ 0x1021;
        } else {
          crc := crc << 1;
        }
      }
      FeedByte(before, bits, data[..k], data[k]);
      assert data[..k + 1] == data[..k] + [data[k]];
    }
    assert data[..|data|] == data;
  }

  lemma FeedByte(r: seq<bool>, bits: seq<bool>, data: seq<byte>, b: byte)
    requires r == Register(data) && bits == ByteBits(b)
    ensures Mix(Feed(r, bits[..8]), bits[8..]) == Register(data + [b])
  {
    BitsAppend(data, [b]);
    assert Bits([b]) == bits;
    FeedAppend(Preset(), Bits(data), bits);
    assert bits[..8] == bits;
  }

  // ---- The test passes exactly when the whole frame leaves a zero register --------------------------------

  lemma {:induction false} FeedMix(r: seq<bool>, bits: seq<bool>)
    requires |r| == 16 && |bits| <= 16
    ensures Feed(r, bits) == Feed(Mix(r, bits), Zeros(|bits|))
    decreases |bits|
  {
    if bits == [] {
      assert Mix(r, bits) == r;
    } else {
      MixStep(r, bits);
      FeedMix(Step(r, bits[0]), bits[1..]);
      assert Zeros(|bits|)[1..] == Zeros(|bits| - 1);
    }
  }

  lemma StepInjective(r: seq<bool>)
    requires |r| == 16 && Step(r, false) == Zeros(16)
    ensures r == Zeros(16)
  {
    var s := Step(r, false);
    assert !s[15];
    assert !r[0];
    forall j | 1 <= j < 16 ensures !r[j] {
      assert s[j - 1] == r[j];
    }
  }

  lemma {:induction false} ZerosKeepZero(r: seq<bool>, n: nat)
    requires |r| == 16
    ensures Feed(r, Zeros(n)) == Zeros(16) <==> r == Zeros(16)
    decreases n
  {
    if n > 0 {
      assert Zeros(n)[1..] == Zeros(n - 1);
      assert Step(Zeros(16), false) == Zeros(16);
      ZerosKeepZero(Step(r, false), n - 1);
      if Step(r, false) == Zeros(16) {
        StepInjective(r);
      }
    }
  }

  /** The residue theorem: comparing the received checksum is testing the whole frame for a zero register. */
  lemma PassesIffZero(frame: seq<byte>)
    requires |frame| >= 2
    ensures Passes(frame) <==> Register(frame) == Zeros(16)
  {
    var n := |frame| - 2;
    var word := ByteBits(frame[n]) + ByteBits(frame[n + 1]);
    assert frame == frame[..n] + [frame[n], frame[n + 1]];
    assert Bits([frame[n], frame[n + 1]]) == word by {
      assert [frame[n], frame[n + 1]][1..] == [frame[n + 1]];
      assert Bits([frame[n + 1]]) == ByteBits(frame[n + 1]);
    }
    BitsAppend(frame[..n], [frame[n], frame[n + 1]]);
    var r := Register(frame[..n]);
    FeedAppend(Preset(), Bits(frame[..n]), word);
    FeedMix(r, word);
    ZerosKeepZero(Mix(r, word), 16);
    if Mix(r, word) == Zeros(16) {
      forall j | 0 <= j < 16 ensures r[j] == word[j] {
        assert !Mix(r, word)[j];
        assert (word + Zeros(0))[j] == word[j];
      }
      assert r == word;
    }
  }

  // ---- Affine in the message -----------------------------------------------------------------------------

  lemma {:induction false} FeedLinear(r: seq<bool>, s: seq<bool>, a: seq<bool>, b: seq<bool>)
    requires |r| == |s| == 16 && |a| == |b|
    ensures Feed(Xor(r, s), Xor(a, b)) == Xor(Feed(r, a), Feed(s, b))
    decreases |a|
  {
    if a != [] {
      assert Step(Xor(r, s), Xor(a, b)[0]) == Xor(Step(r, a[0]), Step(s, b[0]));
      assert Xor(a, b)[1..] == Xor(a[1..], b[1..]);
      FeedLinear(Step(r, a[0]), Step(s, b[0]), a[1..], b[1..]);
    }
  }

  /** The difference of two checksums depends only on the difference of the messages, and linearly. */
  lemma ChecksumAffine(f: seq<byte>, g: seq<byte>)
    requires |f| == |g|
    ensures Xor(Register(f), Register(g)) == Feed(Zeros(16), Xor(Bits(f), Bits(g)))
  {
    FeedLinear(Preset(), Preset(), Bits(f), Bits(g));
    assert Xor(Preset(), Preset()) == Zeros(16);
  }

  // ---- Bursts --------------------------------------------------------------------------------------------

  /** A register that reaches zero within k more bits has nothing below its top k positions. */
  lemma {:induction false} LowClear(r: seq<bool>, bits: seq<bool>)
    requires |r| == 16 && |bits| <= 16 && Feed(r, bits) == Zeros(16)
    ensures forall j :: |bits| <= j < 16 ==> !r[j]
    decreases |bits|
  {
    if bits != [] {
      var s := Step(r, bits[0]);
      LowClear(s, bits[1..]);
      assert !s[15];
      forall j | |bits| <= j < 16 ensures !r[j] {
        assert s[j - 1] == r[j];
      }
    }
  }

  lemma {:induction false} FirstTrue(d: seq<bool>, k: nat) returns (i: nat)
    requires k < |d| && d[k]
    ensures i <= k && d[i] && d[..i] == Zeros(i)
    decreases k
  {
    if j: nat :| j < k && d[j] {
      i := FirstTrue(d, j);
    } else {
      i := k;
    }
  }

  lemma {:induction false} BitsInjective(f: seq<byte>, g: seq<byte>)
    requires |f| == |g| && Bits(f) == Bits(g)
    ensures f == g
    decreases |f|
  {
    if f != [] {
      assert ByteBits(f[0]) == Bits(f)[..8] == Bits(g)[..8] == ByteBits(g[0]);
      SameByte(f[0], g[0]);
      assert Bits(f[1..]) == Bits(f)[8..] == Bits(g)[8..] == Bits(g[1..]);
      BitsInjective(f[1..], g[1..]);
      assert f == [f[0]] + f[1..];
    }
  }

  lemma FeedOne(r: seq<bool>, b: bool)
    requires |r| == 16
    ensures Feed(r, [b]) == Step(r, b)
  {}

  lemma FirstDifference()
    ensures Step(Zeros(16), true)[15]
  {}

  /** The first difference makes the register nonzero, and 15 more bits and then zeros cannot bring it back. */
  lemma BurstNonzero(d: seq<bool>, i: nat)
    requires i < |d| && d[i] && d[..i] == Zeros(i)
    requires forall j :: i + 16 <= j < |d| ==> !d[j]
    ensures Feed(Zeros(16), d) != Zeros(16)
  {
    hide Feed;
    var k := if i + 16 <= |d| then i + 16 else |d|;
    BurstParts(d, i, k);
    BurstBetween(i, d[i + 1..k], |d| - k);
  }

  lemma BurstBetween(i: nat, inside: seq<bool>, n: nat)
    requires |inside| <= 15
    ensures Feed(Zeros(16), Zeros(i) + ([true] + inside + Zeros(n))) != Zeros(16)
  {
    hide Feed, Zeros;
    FeedAppend(Zeros(16), Zeros(i), [true] + inside + Zeros(n));
    ZerosKeepZero(Zeros(16), i);
    FeedAppend(Zeros(16), [true] + inside, Zeros(n));
    ZerosKeepZero(Feed(Zeros(16), [true] + inside), n);
    WithinBurst(inside);
  }

  lemma BurstParts(d: seq<bool>, i: nat, k: nat)
    requires i < k <= |d| && d[i] && d[..i] == Zeros(i) && forall j :: k <= j < |d| ==> !d[j]
    ensures d == Zeros(i) + ([true] + d[i + 1..k] + Zeros(|d| - k))
  {
    assert d[k..] == Zeros(|d| - k);
    assert d[i..k] == [true] + d[i + 1..k];
  }

  /** Up to fifteen bits behind a first one cannot clear the register. */
  lemma WithinBurst(inside: seq<bool>)
    requires |inside| <= 15
    ensures Feed(Zeros(16), [true] + inside) != Zeros(16)
  {
    hide Step, Feed, Zeros;
    var start := Step(Zeros(16), true);
    FeedAppend(Zeros(16), [true], inside);
    FeedOne(Zeros(16), true);
    if Feed(start, inside) == Zeros(16) {
      LowClear(start, inside);
      FirstDifference();
      assert false;
    }
  }

  /** Two different frames of one length that differ only inside 16 consecutive bits never both pass. */
  lemma BurstDetected(f: seq<byte>, g: seq<byte>, w: nat)
    requires |f| == |g| >= 2 && f != g
    requires forall i :: 0 <= i < 8 * |f| && Bits(f)[i] != Bits(g)[i] ==> w <= i < w + 16
    ensures !(Passes(f) && Passes(g))
  {
    var d := Xor(Bits(f), Bits(g));
    if k: nat :| k < |d| && d[k] {
      var i := FirstTrue(d, k);
      BurstNonzero(d, i);
      ChecksumAffine(f, g);
      PassesIffZero(f);
      PassesIffZero(g);
      assert Xor(Zeros(16), Zeros(16)) == Zeros(16);
    } else {
      forall j | 0 <= j < 8 * |f| ensures Bits(f)[j] == Bits(g)[j] {
        assert !d[j];
      }
      BitsInjective(f, g);
    }
  }

  // ---- Parity --------------------------------------------------------------------------------------------

  function Parity(bits: seq<bool>): bool {
    if bits == [] then false else bits[0] != Parity(bits[1..])
  }

  /** The number of positions at which two bit strings differ. */
  function Distance(a: seq<bool>, b: seq<bool>): nat
    requires |a| == |b|
  {
    if a == [] then 0 else (if a[0] != b[0] then 1 else 0) + Distance(a[1..], b[1..])
  }

  lemma {:induction false} ParityDistance(a: seq<bool>, b: seq<bool>)
    requires |a| == |b|
    ensures (Parity(a) != Parity(b)) <==> Distance(a, b) % 2 == 1
    decreases |a|
  {
    if a != [] {
      ParityDistance(a[1..], b[1..]);
    }
  }

  lemma {:induction false} ParityAppend(a: seq<bool>, b: seq<bool>)
    ensures Parity(a + b) == (Parity(a) != Parity(b))
    decreases |a|
  {
    if a == [] {
      assert a + b == b;
    } else {
      ParityAppend(a[1..], b);
      assert (a + b)[1..] == a[1..] + b;
    }
  }

  lemma {:induction false} ParityXor(a: seq<bool>, b: seq<bool>)
    requires |a| == |b|
    ensures Parity(Xor(a, b)) == (Parity(a) != Parity(b))
    decreases |a|
  {
    if a != [] {
      ParityXor(a[1..], b[1..]);
      assert Xor(a, b)[1..] == Xor(a[1..], b[1..]);
    }
  }

  lemma {:induction false} ParityZeros(n: nat)
    ensures !Parity(Zeros(n))
    decreases n
  {
    if n > 0 {
      assert Zeros(n)[1..] == Zeros(n - 1);
      ParityZeros(n - 1);
    }
  }

  lemma ParityTaps()
    ensures Parity(Taps())
  {
    var t := Taps();
    assert t == Zeros(3) + ([true] + (Zeros(6) + ([true] + (Zeros(4) + [true]))));
    ParityZeros(3);
    ParityZeros(6);
    ParityZeros(4);
    ParityAppend(Zeros(4), [true]);
    ParityAppend([true], Zeros(4) + [true]);
    ParityAppend(Zeros(6), [true] + (Zeros(4) + [true]));
    ParityAppend([true], Zeros(6) + ([true] + (Zeros(4) + [true])));
    ParityAppend(Zeros(3), [true] + (Zeros(6) + ([true] + (Zeros(4) + [true]))));
    assert Parity([true]);
  }

  lemma ParityPreset()
    ensures !Parity(Preset())
  {
    var two := [true, true];
    assert two[1..] == [true];
    assert !Parity(two);
    ParityAppend(two, two);
    var four := two + two;
    ParityAppend(four, four);
    var eight := four + four;
    ParityAppend(eight, eight);
    assert Preset() == eight + eight;
  }

  /** The generator has an even number of terms, so every step adds exactly the parity of the bit it takes in. */
  lemma ParityStep(r: seq<bool>, b: bool)
    requires |r| == 16
    ensures Parity(Step(r, b)) == (Parity(r) != b)
  {
    ParityAppend(r[1..], [false]);
    assert !Parity([false]);
    if r[0] != b {
      ParityXor(Shifted(r), Taps());
      ParityTaps();
    }
  }

  lemma {:induction false} ParityFeed(r: seq<bool>, bits: seq<bool>)
    requires |r| == 16
    ensures Parity(Feed(r, bits)) == (Parity(r) != Parity(bits))
    decreases |bits|
  {
    if bits != [] {
      ParityStep(r, bits[0]);
      ParityFeed(Step(r, bits[0]), bits[1..]);
    }
  }

  /** The checksum has the parity of its message, for every message. */
  lemma ChecksumParity(data: seq<byte>)
    ensures Parity(Register(data)) == Parity(Bits(data))
  {
    ParityFeed(Preset(), Bits(data));
    ParityPreset();
  }

  /** Any odd number of flipped bits, in the message or in the checksum itself, is detected. */
  lemma OddErrorsDetected(f: seq<byte>, g: seq<byte>)
    requires |f| == |g| >= 2
    requires Distance(Bits(f), Bits(g)) % 2 == 1
    ensures !(Passes(f) && Passes(g))
  {
    ParityDistance(Bits(f), Bits(g));
    ChecksumParity(f);
    ChecksumParity(g);
    PassesIffZero(f);
    PassesIffZero(g);
  }
}
