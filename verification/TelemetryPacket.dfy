/**
  The wire format: payload layout, frame layout and the reading of a payload.
  A frame is AA 55, a type byte, a two-byte big-endian payload length, the payload, and a two-byte checksum.
 */
module TelemetryPacket {
  import opened Crc16
  import opened Sequences
  import opened Wrappers

  const HEADER_FIRST: byte := 0xAA
  const HEADER_SECOND: byte := 0x55
  const TYPE_TELEMETRY: byte := 1
  const TYPE_HEART_BEAT: byte := 2
  const TYPE_COMMAND: byte := 4

  const TYPE_INDEX := 2
  const LENGTH_INDEX := 3
  const PAYLOAD_INDEX := 5
  const OVERHEAD := 7
  const MIN_PAYLOAD_LENGTH := 40
  const MAX_PAYLOAD_LENGTH := 80
  const MAX_FRAME := 87

  /** A double or a 64-bit integer, as the eight bytes copied to and from memory. */
  type Word64 = s: seq<byte> | |s| == 8 witness [0, 0, 0, 0, 0, 0, 0, 0]

  datatype TelemetryData = TelemetryData(
    droneId: seq<byte>, latitude: Word64, longitude: Word64, altitude: Word64, speed: Word64, timestamp: Word64)

  // ---- Writing -------------------------------------------------------------------------------------------

  function Numbers(t: TelemetryData): (r: seq<byte>)
    ensures |r| == 40
  {
    t.latitude + (t.longitude + (t.altitude + (t.speed + t.timestamp)))
  }

  /** The payload: the id length cast to a byte, the id, and the five numbers. */
  function Payload(t: TelemetryData): (r: seq<byte>)
    ensures |r| == 41 + |t.droneId|
  {
    [(|t.droneId| % 256) as byte] + t.droneId + Numbers(t)
  }

  /** Where each field lies in the payload. */
  lemma PayloadFields(t: TelemetryData)
    ensures var p, n := Payload(t), |t.droneId|;
      && |p| == n + 41
      && p[0] == (n % 256) as byte
      && p[1..1 + n] == t.droneId
      && p[1 + n..9 + n] == t.latitude
      && p[9 + n..17 + n] == t.longitude
      && p[17 + n..25 + n] == t.altitude
      && p[25 + n..33 + n] == t.speed
      && p[33 + n..41 + n] == t.timestamp
  {
    var front := [(|t.droneId| % 256) as byte] + t.droneId;
    Cut([(|t.droneId| % 256) as byte], t.droneId);
    NumberFields(t);
    hide Numbers;
    var p, n, r := Payload(t), |t.droneId|, Numbers(t);
    SliceAppend(front, r, 1, 1 + n);
    SliceBehind(front, r, 0, 8);
    SliceBehind(front, r, 8, 16);
    SliceBehind(front, r, 16, 24);
    SliceBehind(front, r, 24, 32);
    SliceBehind(front, r, 32, 40);
  }

  lemma NumberFields(t: TelemetryData)
    ensures var r := Numbers(t);
      && r[0..8] == t.latitude && r[8..16] == t.longitude && r[16..24] == t.altitude
      && r[24..32] == t.speed && r[32..40] == t.timestamp
  {}

  /** Everything in front of the checksum; the length field is the payload size cast to 16 bits. */
  function Body(t: TelemetryData): (r: seq<byte>)
    ensures |r| == 46 + |t.droneId|
  {
    var n := |Payload(t)|;
    [HEADER_FIRST, HEADER_SECOND, TYPE_TELEMETRY, (n / 256 % 256) as byte, (n % 256) as byte] + Payload(t)
  }

  /** The frame for t: the body followed by the two bytes that make the whole pass the checksum test. */
  ghost predicate IsPacket(p: seq<byte>, t: TelemetryData) {
    && |p| == |Body(t)| + 2
    && p[..|Body(t)|] == Body(t)
    && Passes(p)
  }

  lemma PacketUnique(p: seq<byte>, q: seq<byte>, t: TelemetryData)
    requires IsPacket(p, t) && IsPacket(q, t)
    ensures p == q
  {
    hide ByteBits, Register;
    var n := |Body(t)|;
    assert ByteBits(p[n]) == (ByteBits(p[n]) + ByteBits(p[n + 1]))[..8] == ByteBits(q[n]);
    assert ByteBits(p[n + 1]) == (ByteBits(p[n]) + ByteBits(p[n + 1]))[8..] == ByteBits(q[n + 1]);
    SameByte(p[n], q[n]);
    SameByte(p[n + 1], q[n + 1]);
    assert p == p[..n] + [p[n], p[n + 1]];
  }

  // ---- Reading -------------------------------------------------------------------------------------------

  function IdLength(view: seq<byte>): (n: nat)
    requires view != []
    ensures n < 256
  {
    view[0] as int
  }

  /** All the bytes that reading a payload touches lie inside the view. */
  predicate Readable(view: seq<byte>) {
    view != [] && 41 + IdLength(view) <= |view|
  }

  /** The record whose id is given and whose numbers are the first 40 bytes, read one after the other. */
  function ReadNumbers(id: seq<byte>, view: seq<byte>): TelemetryData
    requires |view| >= 40
  {
    var latitude, view1 := view[..8], view[8..];
    var longitude, view2 := view1[..8], view1[8..];
    var altitude, view3 := view2[..8], view2[8..];
    var speed, view4 := view3[..8], view3[8..];
    TelemetryData(id, latitude, longitude, altitude, speed, view4[..8])
  }

  /** `deserialize_payload` of a view; None stands for a read past the end of the view, undefined in the source. */
  function Deserialize(view: seq<byte>): (r: Option<TelemetryData>)
    ensures r.Some? <==> Readable(view)
  {
    if !Readable(view) then None
    else
      var n := IdLength(view);
      var text := view[1..];
      Some(ReadNumbers(text[..n], text[n..]))
  }

  /** What reading needs and where it takes each field from. */
  lemma RecordFields(view: seq<byte>)
    ensures Deserialize(view).Some? <==> view != [] && view[0] as int + 41 <= |view|
    ensures Deserialize(view).Some? ==>
      var t, n := Deserialize(view).value, view[0] as int;
      && t.droneId == view[1..1 + n]
      && t.latitude == view[1 + n..9 + n]
      && t.longitude == view[9 + n..17 + n]
      && t.altitude == view[17 + n..25 + n]
      && t.speed == view[25 + n..33 + n]
      && t.timestamp == view[33 + n..41 + n]
  {
    if Readable(view) {
      FieldsFrom(view, IdLength(view));
    }
    hide ReadNumbers;
  }

  lemma FieldsFrom(view: seq<byte>, n: nat)
    requires n + 41 <= |view|
    ensures var t := ReadNumbers(view[1..][..n], view[1..][n..]);
      && t.droneId == view[1..1 + n]
      && t.latitude == view[1 + n..9 + n]
      && t.longitude == view[9 + n..17 + n]
      && t.altitude == view[17 + n..25 + n]
      && t.speed == view[25 + n..33 + n]
      && t.timestamp == view[33 + n..41 + n]
  {
    hide ReadNumbers;
    ReadFields(view[1..][..n], view[1..][n..]);
    SliceOfSuffix(view, 1, n);
    SuffixOfSuffix(view, 1, n);
    SliceInSuffix(view, 1 + n, 0, 8);
    SliceInSuffix(view, 1 + n, 8, 16);
    SliceInSuffix(view, 1 + n, 16, 24);
    SliceInSuffix(view, 1 + n, 24, 32);
    SliceInSuffix(view, 1 + n, 32, 40);
  }

  lemma ReadFields(id: seq<byte>, view: seq<byte>)
    requires |view| >= 40
    ensures var t := ReadNumbers(id, view);
      && t.droneId == id && t.latitude == view[0..8] && t.longitude == view[8..16]
      && t.altitude == view[16..24] && t.speed == view[24..32] && t.timestamp == view[32..40]
  {}

  lemma ReadWritten(t: TelemetryData, rest: seq<byte>)
    ensures ReadNumbers(t.droneId, Numbers(t) + rest) == t
  {}

  lemma ReadPrefix(id: seq<byte>, view: seq<byte>, rest: seq<byte>)
    requires |view| >= 40
    ensures ReadNumbers(id, view + rest) == ReadNumbers(id, view)
  {}

  /** Reading inverts writing, whatever bytes follow, exactly for the ids whose length fits the length byte. */
  lemma DeserializePayload(t: TelemetryData, rest: seq<byte>)
    ensures Deserialize(Payload(t) + rest) == Some(t) <==> |t.droneId| < 256
  {
    var view := Payload(t) + rest;
    var n := |t.droneId|;
    ByteOfInt(n % 256);
    assert IdLength(view) == n % 256;
    if n < 256 {
      assert view[1..] == t.droneId + (Numbers(t) + rest);
      Cut(t.droneId, Numbers(t) + rest);
      hide Payload, Numbers, ReadNumbers, IdLength;
      ReadWritten(t, rest);
    }
  }

  lemma NumbersRead(id: seq<byte>, view: seq<byte>)
    requires |view| == 40
    ensures ReadNumbers(id, view).droneId == id && Numbers(ReadNumbers(id, view)) == view
  {}

  lemma IntOfByte(b: byte)
    ensures (b as int) as byte == b && b as int % 256 == b as int
  {
    ByteOfInt(b as int);
  }

  lemma IdLengthByte(view: seq<byte>)
    requires view != []
    ensures (IdLength(view) % 256) as byte == view[0]
  {
    IntOfByte(view[0]);
  }

  /** Writing inverts reading, for a view that holds nothing but the payload. */
  lemma SerializeDeserialized(view: seq<byte>)
    requires Readable(view) && |view| == 41 + IdLength(view)
    ensures var t := Deserialize(view).value; |t.droneId| == IdLength(view) && Payload(t) == view
  {
    var n, text := IdLength(view), view[1..];
    NumbersRead(text[..n], text[n..]);
    IdLengthByte(view);
    hide IdLength, ReadNumbers, Numbers;
    SplitHead(view, n);
  }

  lemma ByteOfInt(k: nat)
    requires k < 256
    ensures (k as byte) as int == k
  {
    assert k % 256 == k;
    assert 0 <= (k as byte) as int < 256;
  }

  lemma DeserializeExtends(view: seq<byte>, rest: seq<byte>)
    requires Readable(view)
    ensures Deserialize(view + rest) == Deserialize(view)
  {
    var n := IdLength(view);
    assert (view + rest)[1..] == view[1..] + rest;
    assert (view[1..] + rest)[..n] == view[1..][..n];
    assert (view[1..] + rest)[n..] == view[1..][n..] + rest;
    assert IdLength(view + rest) == n;
    hide ReadNumbers, IdLength;
    ReadPrefix(view[1..][..n], view[1..][n..], rest);
  }

  /** What is decoded from a nonempty view is independent of the bytes behind it exactly when the view is readable. */
  lemma DecodingIndependent(view: seq<byte>)
    requires view != []
    ensures Readable(view) <==> forall rest :: Deserialize(view + rest) == Deserialize(view)
  {
    if Readable(view) {
      forall rest ensures Deserialize(view + rest) == Deserialize(view) {
        DeserializeExtends(view, rest);
      }
    } else {
      var rest: seq<byte> := seq(296, i => view[0]);
      assert (view + rest)[0] == view[0];
      assert Readable(view + rest);
      assert Deserialize(view + rest) != Deserialize(view);
    }
  }
}
