/**
  The sending side: payload serialization, packet building, and the single-bit corruption of a packet.
  The random draws of the corruption are parameters.
 */
module DroneDataSimulator {
  import opened Crc16
  import opened Sequences
  import opened TelemetryPacket

  /** The payload, built by appending to a byte vector. */
  method SerializeTelemetryData(t: TelemetryData) returns (payload: seq<byte>)
    ensures payload == Payload(t)
    ensures var n := |t.droneId|;
      && |payload| == n + 41
      && payload[0] == (n % 256) as byte
      && payload[1..1 + n] == t.droneId
      && payload[1 + n..9 + n] == t.latitude
      && payload[9 + n..17 + n] == t.longitude
      && payload[17 + n..25 + n] == t.altitude
      && payload[25 + n..33 + n] == t.speed
      && payload[33 + n..41 + n] == t.timestamp
  {
    payload := [(|t.droneId| % 256) as byte];
    payload := payload + t.droneId;
    ghost var front := payload;
    payload := payload + t.latitude;
    payload := payload + t.longitude;
    payload := payload + t.altitude;
    payload := payload + t.speed;
    payload := payload + t.timestamp;
    assert payload == front + Numbers(t);
    PayloadFields(t);
  }

  /** The frame, built by appending header, type, length, payload and the checksum of all of these. */
  method BuildTelemetryPacket(t: TelemetryData) returns (packet: seq<byte>)
    ensures IsPacket(packet, t)
    ensures var n := 41 + |t.droneId|;
      && |packet| == n + 7
      && packet[0] == 0xAA && packet[1] == 0x55 && packet[2] == 1
      && packet[3] as int * 256 + packet[4] as int == n % 65536
      && packet[5..5 + n] == Payload(t)
  {
    hide ByteBits, IsWord, Register, Passes, Body;
    packet := [HEADER_FIRST];
    packet := packet + [HEADER_SECOND];
    packet := packet + [TYPE_TELEMETRY];
    var payload := SerializeTelemetryData(t);
    var payloadSize := |payload| % 0x1_0000;
    packet := packet + [(payloadSize / 256) as byte];
    packet := packet + [(payloadSize % 256) as byte];
    packet := packet + payload;
    BodyBytes(t, payloadSize);
    assert packet == Body(t);
    var crc := CalculateCrc16(packet);
    var hi, lo := ((crc >> 8) & 0xFF) as byte, (crc & 0xFF) as byte;
    packet := packet + [hi];
    packet := packet + [lo];
    ChecksumAppended(Body(t), crc);
    Cut(Body(t), [hi, lo]);
    assert packet == Body(t) + [hi, lo];
    PacketFields(packet, t);
  }

  lemma PacketFields(p: seq<byte>, t: TelemetryData)
    requires |p| == |Body(t)| + 2 && p[..|Body(t)|] == Body(t)
    ensures var n := 41 + |t.droneId|;
      && |p| == n + 7
      && p[0] == 0xAA && p[1] == 0x55 && p[2] == 1
      && p[3] as int * 256 + p[4] as int == n % 65536
      && p[5..5 + n] == Payload(t)
  {
    var n := |Payload(t)|;
    BodyFields(t);
    hide Body, Payload;
    SliceOfPrefix(p, |Body(t)|, 5, 5 + n);
    forall k | 0 <= k < 5 ensures p[k] == Body(t)[k] {
      assert p[k] == p[..|Body(t)|][k];
    }
  }

  lemma BodyFields(t: TelemetryData)
    ensures var n := 41 + |t.droneId|; var b := Body(t);
      && |b| == n + 5
      && b[0] == 0xAA && b[1] == 0x55 && b[2] == 1
      && b[3] as int * 256 + b[4] as int == n % 65536
      && b[5..5 + n] == Payload(t)
  {
    hide Payload;
    var n := |Payload(t)|;
    TwoBytes(n);
    Cut([HEADER_FIRST, HEADER_SECOND, TYPE_TELEMETRY, (n / 256 % 256) as byte, (n % 256) as byte], Payload(t));
  }

  lemma HighAndLow(n: nat)
    ensures n / 256 % 256 * 256 + n % 256 == n % 0x1_0000
    ensures n < 256 ==> n / 256 % 256 == 0
  {
    var q := n / 256;
    assert n == 0x1_0000 * (q / 256) + (256 * (q % 256) + n % 256);
  }

  lemma TwoBytes(n: nat)
    ensures ((n / 256 % 256) as byte) as int * 256 + ((n % 256) as byte) as int == n % 0x1_0000
    ensures n < 256 ==> (n / 256 % 256) as byte == 0
  {
    ByteOfInt(n / 256 % 256);
    ByteOfInt(n % 256);
    HighAndLow(n);
  }

  lemma BodyBytes(t: TelemetryData, payloadSize: nat)
    requires payloadSize == |Payload(t)| % 0x1_0000
    ensures Body(t) == [HEADER_FIRST, HEADER_SECOND, TYPE_TELEMETRY,
                        (payloadSize / 256) as byte, (payloadSize % 256) as byte] + Payload(t)
  {
    hide Payload;
    LengthBytes(|Payload(t)|);
  }

  lemma LengthBytes(n: nat)
    ensures (n % 0x1_0000 / 256) as byte == (n / 256 % 256) as byte && (n % 0x1_0000 % 256) as byte == (n % 256) as byte
  {
    SixteenBits(n);
  }

  lemma SixteenBits(n: nat)
    ensures n % 0x1_0000 / 256 == n / 256 % 256 && n % 0x1_0000 % 256 == n % 256
  {
    var laps, m := n / 0x1_0000, n % 0x1_0000;
    assert n == 256 * (256 * laps + m / 256) + m % 256;
    assert n / 256 == 256 * laps + m / 256;
  }

  function Flip(b: byte, bit: nat): byte
    requires bit < 8
  {
    b ^ (1 << bit)
  }

  /** A byte string with one bit flipped. */
  function Flipped(p: seq<byte>, index: nat, bit: nat): (r: seq<byte>)
    requires index < |p| && bit < 8
    ensures |r| == |p|
  {
    p[index := Flip(p[index], bit)]
  }

  /** With the drawn chance, flip the drawn bit of the drawn byte, in place. */
  method StatisticPacketCorruption(packet: array<byte>, chance: int, draw: int, targetByte: nat, targetBit: nat)
    returns (corrupted: bool)
    requires draw <= chance ==> 3 <= targetByte < packet.Length && targetBit < 8
    modifies packet
    ensures corrupted <==> draw <= chance
    ensures packet[..] == if corrupted then Flipped(old(packet[..]), targetByte, targetBit) else old(packet[..])
    ensures forall k :: 0 <= k < packet.Length ==>
      packet[k] == if corrupted && k == targetByte then old(packet[k]) ^ (1 << targetBit) else old(packet[k])
  {
    if draw <= chance {
      packet[targetByte] := packet[targetByte] ^ (1 << targetBit);
      return true;
    }
    return false;
  }

  // ---- A flipped bit as a difference of bit strings ------------------------------------------------------

  lemma FlippedMask(b: byte, m: byte, n: byte)
    requires m in {0x80, 0x40, 0x20, 0x10, 0x08, 0x04, 0x02, 0x01}
    requires n in {0x80, 0x40, 0x20, 0x10, 0x08, 0x04, 0x02, 0x01}
    ensures ByteBit(b ^ m, n) == (ByteBit(b, n) != (m == n))
  {}

  lemma ShiftedMask(bit: nat)
    requires bit < 8
    ensures 1 << bit == ByteMask(7 - bit)
  {}

  lemma ByteMasks(i: nat, j: nat)
    requires i < 8 && j < 8
    ensures ByteMask(i) in {0x80, 0x40, 0x20, 0x10, 0x08, 0x04, 0x02, 0x01}
    ensures ByteMask(i) == ByteMask(j) <==> i == j
  {}

  lemma FlippedAt(b: byte, bit: nat, j: nat)
    requires bit < 8 && j < 8
    ensures ByteBit(Flip(b, bit), ByteMask(j)) == (ByteBit(b, ByteMask(j)) != (j == 7 - bit))
  {
    ShiftedMask(bit);
    hide ByteBit, ByteMask;
    ByteMasks(7 - bit, j);
    ByteMasks(j, j);
    FlippedMask(b, ByteMask(7 - bit), ByteMask(j));
  }

  lemma FlippedBit(b: byte, bit: nat)
    requires bit < 8
    ensures ByteBits(Flip(b, bit)) == ByteBits(b)[7 - bit := !ByteBits(b)[7 - bit]]
  {
    hide ByteBit, ByteMask, Flip;
    forall j: nat | j < 8
      ensures ByteBits(Flip(b, bit))[j] == (ByteBits(b)[j] != (j == 7 - bit))
    {
      FlippedAt(b, bit, j);
    }
  }

  lemma {:induction false} DistanceSelf(a: seq<bool>)
    ensures Distance(a, a) == 0
    decreases |a|
  {
    if a != [] {
      DistanceSelf(a[1..]);
    }
  }

  lemma {:induction false} DistanceUpdate(a: seq<bool>, k: nat)
    requires k < |a|
    ensures Distance(a, a[k := !a[k]]) == 1
    decreases |a|
  {
    var b := a[k := !a[k]];
    if k == 0 {
      assert b[1..] == a[1..];
      DistanceSelf(a[1..]);
    } else {
      assert b[1..] == a[1..][k - 1 := !a[1..][k - 1]];
      DistanceUpdate(a[1..], k - 1);
    }
  }

  lemma {:induction false} FlippedBits(p: seq<byte>, index: nat, bit: nat)
    requires index < |p| && bit < 8
    ensures var k := 8 * index + 7 - bit;
      Bits(Flipped(p, index, bit)) == Bits(p)[k := !Bits(p)[k]]
    decreases |p|
  {
    hide ByteBits, Flip;
    var q := Flipped(p, index, bit);
    if index == 0 {
      FlippedBit(p[0], bit);
      assert q[1..] == p[1..];
      UpdateLeft(ByteBits(p[0]), Bits(p[1..]), 7 - bit, !ByteBits(p[0])[7 - bit]);
    } else {
      FlippedBits(p[1..], index - 1, bit);
      assert q[1..] == Flipped(p[1..], index - 1, bit);
      UpdateRight(ByteBits(p[0]), Bits(p[1..]), 8 * (index - 1) + 7 - bit, !Bits(p[1..])[8 * (index - 1) + 7 - bit]);
    }
  }

  /** One flipped bit always changes the outcome of the checksum test on a passing frame. */
  lemma FlipFails(p: seq<byte>, index: nat, bit: nat)
    requires index < |p| && bit < 8 && Passes(p)
    ensures !Passes(Flipped(p, index, bit))
  {
    hide ByteBits;
    FlippedBits(p, index, bit);
    DistanceUpdate(Bits(p), 8 * index + 7 - bit);
    OddErrorsDetected(p, Flipped(p, index, bit));
  }
}
