/**
  What the parser makes of a packet that the simulator has corrupted. Behind the length field every flipped bit is
  noticed; in the high length byte too. In the low length byte a flip to another length in range can be accepted: a
  longer frame for the right bytes behind the packet, a shorter one for the right record, and in both cases exactly if
  the flipped bit is not the lowest one.
 */
module Corruption {
  import opened Crc16
  import opened ShortFrames
  import opened Sequences
  import opened TelemetryPacket
  import opened Scanner
  import opened DroneDataSimulator
  import opened StreamTheorems

  // ---- Behind the length field ---------------------------------------------------------------------------

  /** A frame of the right shape that fails the checksum test is counted as a checksum error, whatever follows. */
  lemma FailingFrame(p: seq<byte>, q: seq<byte>, rest: seq<byte>)
    requires ValidFrame(p) && |q| == |p| && q[..PAYLOAD_INDEX] == p[..PAYLOAD_INDEX] && !Passes(q)
    ensures Classify(q + rest) == BadChecksum(|p| - OVERHEAD)
  {
    hide Passes;
    assert forall k :: 0 <= k < PAYLOAD_INDEX ==> q[..PAYLOAD_INDEX][k] == q[k] && p[..PAYLOAD_INDEX][k] == p[k];
    Cut(q, rest);
  }

  /** One, two or three flipped bits behind the length field of a frame are never accepted. */
  lemma FewFlipsRejected(p: seq<byte>, q: seq<byte>, rest: seq<byte>)
    requires ValidFrame(p) && |q| == |p| && q[..PAYLOAD_INDEX] == p[..PAYLOAD_INDEX]
    requires 1 <= Distance(Bits(p), Bits(q)) <= 3
    ensures Classify(q + rest) == BadChecksum(|p| - OVERHEAD)
  {
    FewErrorsDetected(p, q);
    hide Passes, Classify, Bits, Distance;
    FailingFrame(p, q, rest);
  }

  /** Nor is a burst of at most sixteen bits. */
  lemma BurstRejected(p: seq<byte>, q: seq<byte>, w: nat, rest: seq<byte>)
    requires ValidFrame(p) && |q| == |p| && q != p && q[..PAYLOAD_INDEX] == p[..PAYLOAD_INDEX]
    requires forall i :: 0 <= i < 8 * |p| && Bits(p)[i] != Bits(q)[i] ==> w <= i < w + 16
    ensures Classify(q + rest) == BadChecksum(|p| - OVERHEAD)
  {
    hide Passes, Classify, Bits;
    BurstDetected(p, q, w);
    FailingFrame(p, q, rest);
  }

  /** One flipped bit behind the length field of a packet: counted as a checksum error, never accepted. */
  lemma FlipRejected(p: seq<byte>, t: TelemetryData, index: nat, bit: nat, rest: seq<byte>)
    requires IsPacket(p, t) && |t.droneId| <= 39
    requires PAYLOAD_INDEX <= index < |p| && bit < 8
    ensures Classify(Flipped(p, index, bit) + rest) == BadChecksum(41 + |t.droneId|)
  {
    hide Passes, Classify, Payload, Body;
    BuiltPacketAccepted(p, t, []);
    FlipFails(p, index, bit);
    FailingFrame(p, Flipped(p, index, bit), rest);
  }

  // ---- The high length byte ------------------------------------------------------------------------------

  lemma FlippedHighLength(hi: byte, bit: nat)
    requires hi == 0 && bit < 8
    ensures Flip(hi, bit) != 0
  {}

  /** One flipped bit in the high length byte: counted as a structure error. */
  lemma HighLengthFlipRejected(p: seq<byte>, t: TelemetryData, bit: nat, rest: seq<byte>)
    requires IsPacket(p, t) && |t.droneId| <= 39 && bit < 8
    ensures Classify(Flipped(p, LENGTH_INDEX, bit) + rest).BadLength?
  {
    BuiltHeader(p, t);
    FlippedHighLength(p[3], bit);
    hide Passes, Payload, Body;
    LargeLength(Flipped(p, LENGTH_INDEX, bit), rest);
  }

  lemma LargeLength(q: seq<byte>, rest: seq<byte>)
    requires |q| >= PAYLOAD_INDEX && q[0] == HEADER_FIRST && q[1] == HEADER_SECOND && q[2] == TYPE_TELEMETRY
    requires q[3] != 0
    ensures Classify(q + rest).BadLength?
  {
    hide Passes;
    assert LengthField(q + rest) >= 256;
  }

  // ---- The low length byte -------------------------------------------------------------------------------

  lemma FlippedValue(b: byte, bit: nat)
    requires bit < 8
    ensures var c := Flip(b, bit) as int;
      c != b as int && (bit == 0 <==> c == b as int + 1 || c == b as int - 1)
  {
    ShiftedMask(bit);
    FlippedBy(b, 7 - bit);
    hide ByteMask;
  }

  lemma FlippedBy(b: byte, j: nat)
    requires j < 8
    ensures var c := (b ^ ByteMask(j)) as int;
      c != b as int && (j == 7 <==> c == b as int + 1 || c == b as int - 1)
  {}

  /** The packet as the parser sees it after the flip: the header stands, the length is another one. */
  lemma LowLengthFlip(p: seq<byte>, t: TelemetryData, bit: nat)
    requires IsPacket(p, t) && |t.droneId| <= 39 && bit < 8
    ensures var q, n := Flipped(p, LENGTH_INDEX + 1, bit), 41 + |t.droneId|;
      && |q| == |p| == n + OVERHEAD && ValidFrame(p)
      && q[0] == HEADER_FIRST && q[1] == HEADER_SECOND && q[2] == TYPE_TELEMETRY
      && LengthField(q) != n && (bit == 0 <==> LengthField(q) == n + 1 || LengthField(q) == n - 1)
  {
    hide Passes, Payload, Body, Classify, Flip, LengthField;
    BuiltPacketAccepted(p, t, []);
    BuiltHeader(p, t);
    FlippedValue(p[4], bit);
    LowByteValue(p);
    LowByteValue(Flipped(p, LENGTH_INDEX + 1, bit));
  }

  /** The verdict on a frame of telemetry type, given its length field. */
  lemma ByLength(q: seq<byte>, rest: seq<byte>)
    requires |q| >= PAYLOAD_INDEX && q[0] == HEADER_FIRST && q[1] == HEADER_SECOND && q[2] == TYPE_TELEMETRY
    ensures var w, n := q + rest, LengthField(q);
      Classify(w) == if !LengthInRange(n) then BadLength(Telemetry, n)
                     else if |w| < n + OVERHEAD then Incomplete
                     else if Passes(w[..n + OVERHEAD]) then Accepted(n)
                     else BadChecksum(n)
  {
    hide Passes;
    assert LengthField(q + rest) == LengthField(q);
  }

  /**
    A length out of range is a structure error. A shorter one in range is decided by the shorter prefix alone, and after
    a flip of the lowest bit that never passes.
   */
  lemma ShorteningFlip(p: seq<byte>, t: TelemetryData, bit: nat, rest: seq<byte>)
    requires IsPacket(p, t) && |t.droneId| <= 39 && bit < 8
    requires LengthField(Flipped(p, LENGTH_INDEX + 1, bit)) < 41 + |t.droneId|
    ensures var q := Flipped(p, LENGTH_INDEX + 1, bit); var n := LengthField(q);
      Classify(q + rest) == if !LengthInRange(n) then BadLength(Telemetry, n)
                            else if bit != 0 && Passes(q[..n + OVERHEAD]) then Accepted(n)
                            else BadChecksum(n)
  {
    hide Passes, Payload, Body, Classify;
    var q := Flipped(p, LENGTH_INDEX + 1, bit);
    LowLengthFlip(p, t, bit);
    ByLength(q, rest);
    if LengthInRange(LengthField(q)) {
      PrefixAppend(q, rest, LengthField(q) + OVERHEAD);
      if bit == 0 {
        FrameSize(p);
        LowestBitFailsShorter(p);
      }
    }
  }

  /** A flip to a shorter length in range can be accepted, for the right record, exactly if it is not the lowest bit. */
  lemma ShorteningFlipAcceptedIff(n: nat, bit: nat, rest: seq<byte>)
    requires 41 <= n <= 80 && bit < 8
    requires LengthInRange(FlippedLength(n, bit)) && FlippedLength(n, bit) < n
    ensures bit != 0 <==>
      exists t: TelemetryData, p ::
        && |t.droneId| == n - 41 && IsPacket(p, t)
        && Classify(Flipped(p, LENGTH_INDEX + 1, bit) + rest) == Accepted(FlippedLength(n, bit))
  {
    hide Passes, Payload, Body, Classify, FlippedLength, Flipped, LengthField;
    var m := FlippedLength(n, bit);
    if bit != 0 {
      FlippedDistance(n, bit);
      var t, p := ShorterPacket(n, m);
      FlippedPacket(p, t, bit);
      ShorteningFlip(p, t, bit, rest);
    }
    if t: TelemetryData, p :|
      && |t.droneId| == n - 41 && IsPacket(p, t)
      && Classify(Flipped(p, LENGTH_INDEX + 1, bit) + rest) == Accepted(m)
    {
      FlippedPacket(p, t, bit);
      ShorteningFlip(p, t, bit, rest);
    }
  }

  /** The length that the flip makes out of n. */
  function FlippedLength(n: nat, bit: nat): nat
    requires n < 256 && bit < 8
  {
    Flip(n as byte, bit) as int
  }

  lemma FlippedDistance(n: nat, bit: nat)
    requires n < 256 && 0 < bit < 8
    ensures var m := FlippedLength(n, bit); m >= n + 2 || m + 2 <= n
  {
    hide Flip;
    ByteOfInt(n);
    FlippedValue(n as byte, bit);
  }

  lemma FlippedPacket(p: seq<byte>, t: TelemetryData, bit: nat)
    requires IsPacket(p, t) && |t.droneId| <= 39 && bit < 8
    ensures |p| == |t.droneId| + 48
    ensures var q, m := Flipped(p, LENGTH_INDEX + 1, bit), FlippedLength(41 + |t.droneId|, bit);
      LengthField(q) == m < 256 && q == p[LENGTH_INDEX + 1 := m as byte]
  {
    hide Passes, Payload, Body, Flip, FlippedLength, LengthField;
    BuiltHeader(p, t);
    LowByteValue(p);
    FlippedByte(p[LENGTH_INDEX + 1], 41 + |t.droneId|, bit);
    LowByteValue(Flipped(p, LENGTH_INDEX + 1, bit));
  }

  lemma LowByteValue(p: seq<byte>)
    requires |p| >= PAYLOAD_INDEX && p[LENGTH_INDEX] == 0
    ensures LengthField(p) == p[LENGTH_INDEX + 1] as int
  {}

  lemma FlippedByte(b: byte, n: nat, bit: nat)
    requires b as int == n && bit < 8
    ensures n < 256 && Flip(b, bit) as int == FlippedLength(n, bit) < 256
    ensures FlippedLength(n, bit) as byte == Flip(b, bit)
  {
    hide Flip;
    IntOfByte(b);
    IntOfByte(Flip(b, bit));
  }

  /**
    A longer length out of range is a structure error. One in range can be accepted, with the right bytes behind the
    packet, exactly if it is not the flip of the lowest bit: for that one the checksum never comes out.
   */
  lemma LengtheningFlip(p: seq<byte>, t: TelemetryData, bit: nat)
    requires IsPacket(p, t) && |t.droneId| <= 39 && bit < 8
    requires LengthField(Flipped(p, LENGTH_INDEX + 1, bit)) > 41 + |t.droneId|
    ensures var q := Flipped(p, LENGTH_INDEX + 1, bit); var n := LengthField(q);
      && (!LengthInRange(n) ==> forall rest :: Classify(q + rest) == BadLength(Telemetry, n))
      && (LengthInRange(n) ==> (bit != 0 <==> exists rest :: Classify(q + rest) == Accepted(n)))
  {
    hide Passes, Payload, Body, Classify;
    var q := Flipped(p, LENGTH_INDEX + 1, bit);
    var n := LengthField(q);
    LowLengthFlip(p, t, bit);
    if !LengthInRange(n) {
      forall rest ensures Classify(q + rest) == BadLength(Telemetry, n) {
        ByLength(q, rest);
      }
    } else if bit != 0 {
      var rest := Completion(q, n);
      ByLength(q, rest);
    } else {
      forall rest ensures Classify(q + rest) != Accepted(n) {
        ByLength(q, rest);
        if |rest| > 0 {
          FrameSize(p);
          LowestBitFails(p, rest[0]);
          assert (q + rest)[..n + OVERHEAD] == q + [rest[0]];
        }
      }
    }
  }

  /** Bytes that complete a started frame so that it passes. */
  lemma Completion(q: seq<byte>, n: nat) returns (rest: seq<byte>)
    requires |q| + 2 <= n + OVERHEAD
    ensures |q + rest| == n + OVERHEAD && Passes((q + rest)[..n + OVERHEAD])
  {
    hide Passes;
    var fill: seq<byte> := seq(n + OVERHEAD - 2 - |q|, _ => 0);
    var end := Sealed(q + fill);
    rest := fill + end;
    assert (q + rest)[..n + OVERHEAD] == q + fill + end;
  }

  // ---- The lowest length bit -----------------------------------------------------------------------------

  lemma {:induction false} ShiftOut(k: nat, x: seq<bool>)
    requires k + |x| == 16
    ensures Feed(Zeros(k) + x, Zeros(k)) == x + Zeros(k)
    decreases k
  {
    if k == 0 {
      assert Zeros(0) + x == x + Zeros(0) == x;
    } else {
      assert Step(Zeros(k) + x, false) == Zeros(k - 1) + (x + [false]);
      assert Zeros(k)[1..] == Zeros(k - 1);
      ShiftOut(k - 1, x + [false]);
      assert x + [false] + Zeros(k - 1) == x + Zeros(k);
    }
  }

  /** The first checksum byte, fed in, cancels the high half of the register. */
  lemma FeedOwnByte(hi: seq<bool>, lo: seq<bool>)
    requires |hi| == |lo| == 8
    ensures Feed(hi + lo, hi) == lo + Zeros(8)
  {
    FeedMix(hi + lo, hi);
    assert Mix(hi + lo, hi) == Zeros(8) + lo;
    ShiftOut(8, lo);
  }

  /** A passing frame without its last byte has the last byte as the high half of its checksum. */
  lemma WithoutLast(p: seq<byte>)
    requires Passes(p)
    ensures Register(p[..|p| - 1]) == ByteBits(p[|p| - 1]) + Zeros(8)
  {
    var m := |p| - 2;
    assert p[..m + 1] == p[..m] + [p[m]];
    BitsAppend(p[..m], [p[m]]);
    assert Bits([p[m]]) == ByteBits(p[m]);
    FeedAppend(Preset(), Bits(p[..m]), ByteBits(p[m]));
    hide Feed, Bits, ByteBits;
    FeedOwnByte(ByteBits(p[m]), ByteBits(p[m + 1]));
  }

  lemma SingleDifference(a: seq<bool>, i: nat)
    requires i < |a|
    ensures Xor(a, a[i := !a[i]]) == Zeros(i) + ([true] + Zeros(|a| - i - 1))
  {}

  /** The difference of the checksums after a flip of the lowest bit of a byte. */
  lemma LowestBitSpreads(p: seq<byte>, index: nat)
    requires index < |p|
    ensures var k := |p| - index - 1;
      IsWord(AfterBytes(k), Xor(Register(p), Register(Flipped(p, index, 0))))
  {
    var i, k := 8 * index + 7, |p| - index - 1;
    var a := Bits(p);
    hide Feed, Bits, Register, IsWord, Turns, Xor, Zeros;
    FlippedBits(p, index, 0);
    ChecksumAffine(p, Flipped(p, index, 0));
    SingleDifference(a, i);
    FeedAppend(Zeros(16), Zeros(i), [true] + Zeros(8 * k));
    ZerosKeepZero(Zeros(16), i);
    SingleBit(8 * k);
  }

  lemma HighHalf(w: bv16)
    requires BothBytes(w)
    ensures exists j: nat :: j < 8 && WordBit(w, Mask(j))
  {
    assert WordBit(w, Mask(0)) || WordBit(w, Mask(1)) || WordBit(w, Mask(2)) || WordBit(w, Mask(3))
      || WordBit(w, Mask(4)) || WordBit(w, Mask(5)) || WordBit(w, Mask(6)) || WordBit(w, Mask(7));
  }

  lemma LowHalf(w: bv16)
    requires BothBytes(w)
    ensures exists j: nat :: 8 <= j < 16 && WordBit(w, Mask(j))
  {
    assert WordBit(w, Mask(8)) || WordBit(w, Mask(9)) || WordBit(w, Mask(10)) || WordBit(w, Mask(11))
      || WordBit(w, Mask(12)) || WordBit(w, Mask(13)) || WordBit(w, Mask(14)) || WordBit(w, Mask(15));
  }

  /** A flip of the lowest bit of a byte changes both halves of the checksum, as long as few bytes follow. */
  lemma HalvesChange(p: seq<byte>, index: nat) returns (high: nat, low: nat)
    requires index < |p| <= index + 88
    ensures high < 8 && Register(p)[high] != Register(Flipped(p, index, 0))[high]
    ensures 8 <= low < 16 && Register(p)[low] != Register(Flipped(p, index, 0))[low]
  {
    hide IsWord, WordBit, Mask, AfterBytes, BothBytes, Register, Flipped, Xor;
    var w, d := AfterBytes(|p| - index - 1), Xor(Register(p), Register(Flipped(p, index, 0)));
    LowestBitSpreads(p, index);
    NoReturn();
    HighHalf(w);
    high :| high < 8 && WordBit(w, Mask(high));
    WordAt(w, d, high);
    XorAt(Register(p), Register(Flipped(p, index, 0)), high);
    LowHalf(w);
    low :| 8 <= low < 16 && WordBit(w, Mask(low));
    WordAt(w, d, low);
    XorAt(Register(p), Register(Flipped(p, index, 0)), low);
  }

  lemma XorAt(a: seq<bool>, b: seq<bool>, j: nat)
    requires |a| == |b| && j < |a|
    ensures Xor(a, b)[j] == (a[j] != b[j])
  {}

  lemma FlippedFront(p: seq<byte>, index: nat, bit: nat)
    requires index < |p| - 1 && bit < 8
    ensures var last, q := |p| - 1, Flipped(p, index, bit);
      q[..last] == Flipped(p[..last], index, bit) && q[last] == p[last]
  {}

  lemma WordAt(w: bv16, r: seq<bool>, j: nat)
    requires IsWord(w, r) && j < 16
    ensures |r| == 16 && r[j] == WordBit(w, Mask(j))
  {}

  lemma FrameSize(p: seq<byte>)
    requires ValidFrame(p)
    ensures PAYLOAD_INDEX + 2 <= |p| <= MAX_FRAME && Passes(p)
  {
    hide Passes, LengthField;
  }

  lemma FailsAt(f: seq<byte>, j: nat)
    requires |f| >= 2 && j < 8 && Register(f[..|f| - 2])[j] != ByteBits(f[|f| - 2])[j]
    ensures !Passes(f)
  {
    hide Register, ByteBits;
  }

  lemma WithOneMore(q: seq<byte>, next: byte)
    requires q != []
    ensures (q + [next])[..|q + [next]| - 2] == q[..|q| - 1] && (q + [next])[|q + [next]| - 2] == q[|q| - 1]
  {}

  /** Read as one byte longer, the flipped packet fails whatever the next byte is. */
  lemma LowestBitFails(p: seq<byte>, next: byte)
    requires PAYLOAD_INDEX + 2 <= |p| <= MAX_FRAME && Passes(p)
    ensures !Passes(Flipped(p, LENGTH_INDEX + 1, 0) + [next])
  {
    var q, last := Flipped(p, LENGTH_INDEX + 1, 0), |p| - 1;
    FlippedFront(p, LENGTH_INDEX + 1, 0);
    hide Register, ByteBits, Passes, Flipped, Zeros;
    WithoutLast(p);
    var j, _ := HalvesChange(p[..last], LENGTH_INDEX + 1);
    WithOneMore(q, next);
    FailsAt(q + [next], j);
  }

  /** Read as one byte shorter, it fails too. */
  lemma LowestBitFailsShorter(p: seq<byte>)
    requires PAYLOAD_INDEX + 2 <= |p| <= MAX_FRAME && Passes(p)
    ensures !Passes(Flipped(p, LENGTH_INDEX + 1, 0)[..|p| - 1])
  {
    var q, last := Flipped(p, LENGTH_INDEX + 1, 0), |p| - 1;
    FlippedFront(p, LENGTH_INDEX + 1, 0);
    hide Register, ByteBits, Passes, Flipped, Zeros;
    var _, j := HalvesChange(p[..last], LENGTH_INDEX + 1);
    LowHalfZero(p, j);
    NonzeroAt(q[..last], j);
  }

  lemma NonzeroAt(f: seq<byte>, j: nat)
    requires |f| >= 2 && j < 16 && Register(f)[j]
    ensures !Passes(f)
  {
    PassesIffZero(f);
    hide Register, Passes;
  }

  lemma LowHalfZero(p: seq<byte>, j: nat)
    requires Passes(p) && |p| > 2 && 8 <= j < 16
    ensures !Register(p[..|p| - 1])[j]
  {
    hide Register, ByteBits, Passes;
    WithoutLast(p);
  }

  // ---- Which packets can be accepted as shorter frames ---------------------------------------------------

  /** A payload of n bytes of which the frame of length m in front of it passes, m being at least two less. */
  lemma PassingFront(n: nat, m: nat) returns (payload: seq<byte>)
    requires 41 <= n <= 80 && 40 <= m && m + 2 <= n
    ensures |payload| == n && payload[0] == (n - 41) as byte
    ensures Passes([HEADER_FIRST, HEADER_SECOND, TYPE_TELEMETRY, 0, m as byte] + payload[..m + 2])
  {
    hide Passes;
    var header: seq<byte> := [HEADER_FIRST, HEADER_SECOND, TYPE_TELEMETRY, 0, m as byte];
    var front: seq<byte> := [(n - 41) as byte] + Fill(m - 1);
    var end := Sealed(header + front);
    payload := front + end + Fill(n - m - 2);
    assert payload[..m + 2] == front + end;
    Associative(header, front, end);
  }

  function Fill(n: nat): (r: seq<byte>)
    ensures |r| == n
  {
    seq(n, _ => 0)
  }

  /** For every in-range length at least two shorter, some record's packet passes as a frame of that length. */
  lemma ShorterPacket(n: nat, m: nat) returns (t: TelemetryData, p: seq<byte>)
    requires 41 <= n <= 80 && 40 <= m && m + 2 <= n
    ensures |t.droneId| == n - 41 && IsPacket(p, t)
    ensures Passes(p[LENGTH_INDEX + 1 := m as byte][..m + OVERHEAD])
  {
    hide Passes;
    var payload := PassingFront(n, m);
    ByteOfInt(n - 41);
    SerializeDeserialized(payload);
    t := Deserialize(payload).value;
    var end := Sealed(Body(t));
    p := Body(t) + end;
    Cut(Body(t), end);
    FrontOfPacket(t, p, m);
  }

  lemma FrontOfPacket(t: TelemetryData, p: seq<byte>, m: nat)
    requires IsPacket(p, t) && |t.droneId| <= 39 && m + 2 <= |Payload(t)|
    ensures p[LENGTH_INDEX + 1 := m as byte][..m + OVERHEAD]
      == [HEADER_FIRST, HEADER_SECOND, TYPE_TELEMETRY, 0, m as byte] + Payload(t)[..m + 2]
  {
    hide Passes, Payload;
    TwoBytes(|Payload(t)|);
    assert forall k :: 0 <= k < m + OVERHEAD ==> p[k] == p[..|Body(t)|][k];
  }

  // ---- Every flip of the simulator -----------------------------------------------------------------------

  /** The packet of a record with n bytes of payload, with the given bit flipped, is accepted in front of these bytes. */
  ghost predicate AcceptedFlipped(p: seq<byte>, t: TelemetryData, n: nat, index: nat, bit: nat, rest: seq<byte>) {
    && IsPacket(p, t) && |t.droneId| + 41 == n
    && index < |p| && bit < 8
    && Classify(Flipped(p, index, bit) + rest).Accepted?
  }

  /**
    One flipped bit from the length field on can be accepted, for some record of the given size and some bytes behind,
    exactly if it is in the low length byte, not the lowest bit, and leaves the length in range.
   */
  lemma FlipAcceptedIff(n: nat, index: nat, bit: nat)
    requires 41 <= n <= 80 && 3 <= index < n + 7 && bit < 8
    ensures (exists t, p, rest :: AcceptedFlipped(p, t, n, index, bit, rest))
      <==> index == 4 && bit != 0 && 40 <= FlippedLength(n, bit) <= 80
  {
    hide Passes, Payload, Body, Classify, FlippedLength, Flipped, AcceptedFlipped;
    if t, p, rest :| AcceptedFlipped(p, t, n, index, bit, rest) {
      AcceptedOnlyIf(t, p, n, index, bit, rest);
    }
    if index == LENGTH_INDEX + 1 && bit != 0 && LengthInRange(FlippedLength(n, bit)) {
      var t, p, rest := AcceptedIf(n, bit);
    }
  }

  lemma AcceptedOnlyIf(t: TelemetryData, p: seq<byte>, n: nat, index: nat, bit: nat, rest: seq<byte>)
    requires 41 <= n <= 80 && LENGTH_INDEX <= index && AcceptedFlipped(p, t, n, index, bit, rest)
    ensures index == LENGTH_INDEX + 1 && bit != 0 && LengthInRange(FlippedLength(n, bit))
  {
    hide Passes, Payload, Body, Classify, FlippedLength, Flipped;
    if index >= PAYLOAD_INDEX {
      FlipRejected(p, t, index, bit, rest);
    } else if index == LENGTH_INDEX {
      HighLengthFlipRejected(p, t, bit, rest);
    } else {
      FlippedPacket(p, t, bit);
      LowLengthFlip(p, t, bit);
      ByLength(Flipped(p, index, bit), rest);
      if FlippedLength(n, bit) < n {
        ShorteningFlip(p, t, bit, rest);
      } else {
        LengtheningFlip(p, t, bit);
      }
    }
  }

  lemma AcceptedIf(n: nat, bit: nat) returns (t: TelemetryData, p: seq<byte>, rest: seq<byte>)
    requires 41 <= n <= 80 && 0 < bit < 8 && LengthInRange(FlippedLength(n, bit))
    ensures AcceptedFlipped(p, t, n, LENGTH_INDEX + 1, bit, rest)
  {
    hide Passes, Payload, Body, Classify, FlippedLength, Flipped;
    var m := FlippedLength(n, bit);
    FlippedDistance(n, bit);
    if m < n {
      t, p := ShorterPacket(n, m);
      rest := [];
      FlippedPacket(p, t, bit);
      ShorteningFlip(p, t, bit, rest);
    } else {
      t, p := SomePacket(n);
      FlippedPacket(p, t, bit);
      LengtheningFlip(p, t, bit);
      rest :| Classify(Flipped(p, LENGTH_INDEX + 1, bit) + rest) == Accepted(m);
    }
  }

  lemma SomePacket(n: nat) returns (t: TelemetryData, p: seq<byte>)
    requires n >= 41
    ensures IsPacket(p, t) && |t.droneId| + 41 == n
  {
    hide Passes, Payload;
    t := TelemetryData(Fill(n - 41), Fill(8), Fill(8), Fill(8), Fill(8), Fill(8));
    var end := Sealed(Body(t));
    p := Body(t) + end;
    Cut(Body(t), end);
  }
}
