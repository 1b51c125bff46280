/**
  What the parser guarantees over whole streams: which packets it accepts, that it recovers after noise, and that clean
  streams come through unchanged.
 */
module StreamTheorems {
  import opened Crc16
  import opened Sequences
  import opened TelemetryPacket
  import opened Scanner
  import opened ParserModel
  import opened DroneDataSimulator
  import opened Wrappers

  // ---- What an accepted packet is ------------------------------------------------------------------------

  /** A well-formed telemetry frame, in the bytes and numbers of the wire. */
  predicate ValidFrame(p: seq<byte>) {
    && 47 <= |p| <= 87
    && p[0] == 0xAA && p[1] == 0x55 && p[2] == 1
    && |p| == p[3] as int * 256 + p[4] as int + 7
    && Passes(p)
  }

  lemma FrameFields(p: seq<byte>)
    ensures ValidFrame(p) <==>
      && |p| >= OVERHEAD
      && p[0] == HEADER_FIRST && p[1] == HEADER_SECOND && p[2] == TYPE_TELEMETRY
      && LengthInRange(LengthField(p)) && |p| == LengthField(p) + OVERHEAD
      && Passes(p)
  {
    hide Passes;
  }

  /** The scanner accepts exactly where a well-formed frame begins. */
  lemma AcceptsValidFrames(w: seq<byte>, n: nat)
    requires n <= |w|
    ensures ValidFrame(w[..n]) <==> n >= OVERHEAD && Classify(w) == Accepted(n - OVERHEAD)
  {
    FrameFields(w[..n]);
    hide Passes, ValidFrame;
    if |w| >= PAYLOAD_INDEX && n >= PAYLOAD_INDEX {
      assert LengthField(w[..n]) == LengthField(w);
    }
  }

  /** The accepted packets are ordered, pairwise disjoint pieces of the stream, and each is a well-formed frame. */
  ghost predicate OrderedPieces(s: seq<byte>, packets: seq<seq<byte>>, offsets: seq<nat>, stop: nat) {
    && |offsets| == |packets|
    && (forall k :: 0 <= k < |packets| ==>
          && offsets[k] + |packets[k]| <= stop <= |s|
          && packets[k] == s[offsets[k]..offsets[k] + |packets[k]|]
          && ValidFrame(packets[k]))
    && (forall k, l :: 0 <= k < l < |packets| ==> offsets[k] + |packets[k]| <= offsets[l])
  }

  lemma PiecesPush(s: seq<byte>, packets: seq<seq<byte>>, offsets: seq<nat>, at: nat, n: nat, stop: nat)
    requires OrderedPieces(s, packets, offsets, at) && at + n <= stop <= |s| && ValidFrame(s[at..at + n])
    ensures OrderedPieces(s, packets + [s[at..at + n]], offsets + [at], stop)
  {
    hide ValidFrame;
  }

  lemma NoPieces(s: seq<byte>, stop: nat)
    ensures AllWithin([], |s|) && OrderedPieces(s, Packets(s, []), Offsets([]), stop)
  {}

  lemma SoundFront(s: seq<byte>, events: seq<Event>, stop: nat)
    requires Sound(s, 0, events, stop) && AllWithin(events, |s|) && events != []
    ensures var e := events[|events| - 1];
      && Sound(s, 0, events[..|events| - 1], e.at)
      && AllWithin(events[..|events| - 1], |s|)
      && e.verdict == Classify(s[e.at..]) && e.at + e.verdict.Advance() <= stop <= |s|
  {}

  lemma AcceptedFrame(s: seq<byte>, e: Event)
    requires e.at <= |s| && e.verdict == Classify(s[e.at..]) && e.verdict.Accepted?
    ensures Within(e, |s|) && ValidFrame(s[e.at..e.at + e.verdict.Advance()])
  {
    hide Classify, ValidFrame;
    var n := e.verdict.Advance();
    AcceptsValidFrames(s[e.at..], n);
    SliceOfSuffix(s, e.at, n);
  }

  lemma {:induction false} PiecesOf(s: seq<byte>, events: seq<Event>, stop: nat)
    requires Sound(s, 0, events, stop) && AllWithin(events, |s|) && stop <= |s|
    ensures OrderedPieces(s, Packets(s, events), Offsets(events), stop)
    decreases |events|
  {
    hide Classify, ValidFrame, Sound, Packets, OrderedPieces, AllWithin;
    if events == [] {
      NoPieces(s, stop);
    } else {
      SoundFront(s, events, stop);
      var e := events[|events| - 1];
      PacketsLast(s, events);
      var offsets := Offsets(events[..|events| - 1]);
      PiecesOf(s, events[..|events| - 1], e.at);
      if e.verdict.Accepted? {
        AcceptedFrame(s, e);
        PiecesPush(s, Packets(s, events[..|events| - 1]), offsets, e.at, e.verdict.Advance(), stop);
      } else {
        PiecesGrow(s, Packets(s, events), offsets, e.at, stop);
        assert Offsets(events) == offsets;
      }
    }
  }

  lemma PiecesGrow(s: seq<byte>, packets: seq<seq<byte>>, offsets: seq<nat>, stop: nat, further: nat)
    requires OrderedPieces(s, packets, offsets, stop) && stop <= further <= |s|
    ensures OrderedPieces(s, packets, offsets, further)
  {}

  /** Soundness of acceptance, after any run. */
  lemma AcceptanceSound(s: seq<byte>)
    ensures OrderedPieces(s, Summary(s).packets, Offsets(Scan(s, 0).events), |s| - |Residual(s)|)
  {
    hide Classify, ValidFrame, Sound, OrderedPieces, Summary, Scan, Packets;
    ScanSound(s, 0);
    SummaryIs(s);
    PiecesOf(s, Scan(s, 0).events, Scan(s, 0).stop);
  }

  lemma {:induction false} EventIsPacket(s: seq<byte>, events: seq<Event>, k: nat)
    requires AllWithin(events, |s|) && k < |events| && events[k].verdict.Accepted?
    ensures s[events[k].at..events[k].at + events[k].verdict.Advance()] in Packets(s, events)
    decreases |events|
  {
    if k < |events| - 1 {
      EventIsPacket(s, events[..|events| - 1], k);
    }
  }

  lemma FrameAt(s: seq<byte>, j: nat, n: nat)
    requires j + n <= |s| && ValidFrame(s[j..j + n])
    ensures n >= OVERHEAD && Classify(s[j..]) == Accepted(n - OVERHEAD) && HasHeader(s[j..])
  {
    hide Passes, Classify;
    SliceOfSuffix(s, j, n);
    AcceptsValidFrames(s[j..], n);
  }

  /** Completeness: a well-formed frame among the consumed bytes is accepted, unless an accepted one covers its start. */
  lemma AcceptanceComplete(s: seq<byte>, j: nat, n: nat) returns (k: nat)
    requires j < |s| - |Residual(s)| && j + n <= |s| && ValidFrame(s[j..j + n])
    ensures k < |Scan(s, 0).events|
    ensures var e := Scan(s, 0).events[k];
      || (e == Event(j, Accepted(n - OVERHEAD)) && s[j..j + n] in Summary(s).packets)
      || Covers(e, j)
  {
    hide ValidFrame, Classify, Summary, Packets, Scan, HasHeader;
    FrameAt(s, j, n);
    SummaryIs(s);
    k := ScanComplete(s, 0, j);
    var e := Scan(s, 0).events[k];
    if !Covers(e, j) {
      EventIsPacket(s, Scan(s, 0).events, k);
    }
  }

  // ---- Recovery after noise ------------------------------------------------------------------------------

  /** Behind the first byte of a frame at most four bytes away, no unfinished frame of in-range length can wait. */
  lemma NotIncomplete(w: seq<byte>, d: nat)
    requires 0 < d && d + 82 <= |w| && w[d] == HEADER_FIRST
    ensures !Classify(w).Incomplete? && !Classify(w).Exhausted?
  {}

  /**
    A well-formed packet behind noise x is accepted, however many failed candidates in x reach into it, if no frame
    in x is accepted across its start, none is an unhandled type, and 82 bytes follow x in all.
   */
  lemma RecoveryAfterNoise(x: seq<byte>, p: seq<byte>, y: seq<byte>) returns (k: nat)
    requires ValidFrame(p) && |p| + |y| >= 82
    requires forall j :: 0 <= j < |x| ==> var v := Classify((x + p + y)[j..]);
               !v.Unhandled? && !(v.Accepted? && j + v.Advance() > |x|)
    ensures k < |Scan(x + p + y, 0).events|
    ensures Scan(x + p + y, 0).events[k] == Event(|x|, Accepted(|p| - OVERHEAD))
    ensures p in Summary(x + p + y).packets
  {
    var s := x + p + y;
    assert s[|x|..|x| + |p|] == p;
    assert s[|x|..][..|p|] == p;
    AcceptsValidFrames(s[|x|..], |p|);
    var stop := Scan(s, 0).stop;
    if stop < |x| {
      var w := s[stop..];
      assert w[|x| - stop] == p[0];
      NotIncomplete(w, |x| - stop);
      assert false;
    }
    hide Classify, ValidFrame;
    k := AcceptanceComplete(s, |x|, |p|);
    ScanSound(s, 0);
    var e := Scan(s, 0).events[k];
    assert e.verdict == Classify(s[e.at..]);
    assert !Covers(e, |x|);
  }

  /** The first five bytes of a frame that claims a payload of 80 bytes. */
  function Fragment(): (r: seq<byte>)
    ensures |r| == 5
  {
    [0xAA, 0x55, 1, 0, 80]
  }

  lemma NoHeaderAt(w: seq<byte>)
    requires w != [] && w[0] != HEADER_FIRST
    ensures Classify(w) == NoHeader
  {}

  /** No other header starts inside the fragment. */
  lemma InsideFragment(s: seq<byte>, j: nat)
    requires |s| >= 5 && s[..5] == Fragment() && 0 < j < 5
    ensures Classify(s[j..]) == NoHeader
  {
    hide Classify;
    assert s[j..][0] == s[..5][j];
    NoHeaderAt(s[j..]);
  }

  lemma FragmentLength(s: seq<byte>)
    requires |s| >= 5 && s[..5] == Fragment()
    ensures s[0] == HEADER_FIRST && s[1] == HEADER_SECOND && s[2] == TYPE_TELEMETRY && LengthField(s) == 80
  {
    assert s[0] == s[..5][0] && s[1] == s[..5][1] && s[2] == s[..5][2] && s[3] == s[..5][3] && s[4] == s[..5][4];
  }

  /** As long as fewer than 87 bytes have come, the parser waits in front of it. */
  lemma FragmentWaits(s: seq<byte>)
    requires 5 <= |s| < MAX_FRAME && s[..5] == Fragment()
    ensures s[0..] == s && Classify(s) == Incomplete && Scan(s, 0) == Outcome([], 0)
  {
    hide Passes, Scan, LengthField;
    FragmentLength(s);
    assert s[0..] == s;
    ScanStep(s, 0);
  }

  /** 82 is the least such bound: with fewer bytes a five-byte fragment in front keeps the parser waiting. */
  lemma RecoveryBoundTight(p: seq<byte>, y: seq<byte>)
    requires |p| + |y| < 82
    ensures var x := Fragment();
      && (forall j :: 0 <= j < |x| ==> var v := Classify((x + p + y)[j..]);
            !v.Unhandled? && !(v.Accepted? && j + v.Advance() > |x|))
      && Scan(x + p + y, 0).events == []
  {
    hide Classify, Scan, Fragment;
    var x := Fragment();
    var s := x + p + y;
    Associative(x, p, y);
    Cut(x, p + y);
    FragmentWaits(s);
    forall j | 0 < j < 5 ensures Classify(s[j..]) == NoHeader {
      InsideFragment(s, j);
    }
  }

  // ---- Built packets -------------------------------------------------------------------------------------

  /** The first five bytes of a built packet; the length field is the payload size modulo 2^16. */
  lemma BuiltHeader(p: seq<byte>, t: TelemetryData)
    requires IsPacket(p, t)
    ensures p[0] == 0xAA && p[1] == 0x55 && p[2] == 1
    ensures LengthField(p) == (41 + |t.droneId|) % 0x1_0000
    ensures |t.droneId| <= 39 ==> p[3] == 0
  {
    var n := 41 + |t.droneId|;
    assert |Payload(t)| == n;
    hide Passes, Payload;
    assert p[..5] == Body(t)[..5]
      == [HEADER_FIRST, HEADER_SECOND, TYPE_TELEMETRY, (n / 256 % 256) as byte, (n % 256) as byte];
    hide Body;
    assert p[0] == p[..5][0] && p[1] == p[..5][1] && p[2] == p[..5][2] && p[3] == p[..5][3] && p[4] == p[..5][4];
    TwoBytes(n);
  }

  /** A built packet is accepted, whatever follows, exactly when the id has at most 39 bytes. */
  lemma BuiltPacketAccepted(p: seq<byte>, t: TelemetryData, rest: seq<byte>)
    requires IsPacket(p, t)
    ensures Classify(p + rest) == Accepted(41 + |t.droneId|) <==> |t.droneId| <= 39
    ensures |t.droneId| <= 39 ==> ValidFrame(p)
  {
    BuiltHeader(p, t);
    BuiltLength(t);
    hide Passes, Classify, Payload, Body;
    Cut(p, rest);
    AcceptsValidFrames(p + rest, |p|);
  }

  /** Cut off to sixteen bits, the payload size is in range and right exactly for ids of at most 39 bytes. */
  lemma BuiltLength(t: TelemetryData)
    ensures var n := 41 + |t.droneId|; LengthInRange(n % 0x1_0000) && n % 0x1_0000 == n <==> |t.droneId| <= 39
  {}

  lemma BuiltPacketDecodes(p: seq<byte>, t: TelemetryData)
    requires IsPacket(p, t) && |t.droneId| < 256
    ensures Readable(FramePayload(p)) && Deserialize(FramePayload(p)) == Some(t)
  {
    hide Passes;
    var n := |Body(t)|;
    assert p[..n] == Body(t);
    assert FramePayload(p) == Payload(t) + p[n..];
    DeserializePayload(t, p[n..]);
  }

  ghost predicate BuiltStream(packets: seq<seq<byte>>, data: seq<TelemetryData>) {
    && |packets| == |data|
    && forall k :: 0 <= k < |packets| ==> IsPacket(packets[k], data[k]) && |data[k].droneId| <= 39
  }

  /** At a well-formed frame the scanner makes one decision and jumps behind it. */
  lemma FrameStep(s: seq<byte>, i: nat, p: seq<byte>)
    requires i + |p| <= |s| && s[i..i + |p|] == p && ValidFrame(p)
    ensures |p| >= OVERHEAD
    ensures var rest := Scan(s, i + |p|);
      Scan(s, i) == Outcome([Event(i, Accepted(|p| - OVERHEAD))] + rest.events, rest.stop)
  {
    hide Classify, ValidFrame;
    SliceOfSuffix(s, i, |p|);
    AcceptsValidFrames(s[i..], |p|);
  }

  /** The events accept exactly the given packets, one after the other. */
  ghost predicate AcceptInTurn(s: seq<byte>, events: seq<Event>, packets: seq<seq<byte>>) {
    && AllWithin(events, |s|)
    && |events| == |packets|
    && forall k :: 0 <= k < |packets| ==>
         && events[k].verdict.Accepted?
         && s[events[k].at..events[k].at + events[k].verdict.Advance()] == packets[k]
  }

  lemma NoneInTurn(s: seq<byte>)
    ensures AcceptInTurn(s, [], [])
  {}

  lemma AcceptFirst(s: seq<byte>, e: Event, rest: seq<Event>, packets: seq<seq<byte>>)
    requires packets != [] && AcceptInTurn(s, rest, packets[1..])
    requires e.verdict.Accepted? && Within(e, |s|) && s[e.at..e.at + e.verdict.Advance()] == packets[0]
    ensures AcceptInTurn(s, [e] + rest, packets)
  {}

  /** From an offset where only well-formed frames follow, the scanner accepts them one by one up to the end. */
  lemma {:induction false} CleanScan(s: seq<byte>, i: nat, packets: seq<seq<byte>>)
    requires i <= |s| && s[i..] == Flatten(packets)
    requires forall k :: 0 <= k < |packets| ==> ValidFrame(packets[k])
    ensures var o := Scan(s, i); o.stop == |s| && AcceptInTurn(s, o.events, packets)
    decreases |packets|
  {
    hide ValidFrame, Classify, AcceptInTurn, Scan, Flatten;
    if packets == [] {
      NoneInTurn(s);
      NothingLeft(s, i);
    } else {
      var p, others := packets[0], packets[1..];
      FirstChunk(s, i, packets);
      FrameStep(s, i, p);
      CleanScan(s, i + |p|, others);
      AcceptFirst(s, Event(i, Accepted(|p| - OVERHEAD)), Scan(s, i + |p|).events, packets);
    }
  }

  lemma NothingLeft(s: seq<byte>, i: nat)
    requires i <= |s| && s[i..] == Flatten([])
    ensures i == |s| && Scan(s, i) == Outcome([], i)
  {}

  lemma FirstChunk(s: seq<byte>, i: nat, chunks: seq<seq<byte>>)
    requires chunks != [] && i <= |s| && s[i..] == Flatten(chunks)
    ensures i + |chunks[0]| <= |s|
    ensures s[i..i + |chunks[0]|] == chunks[0] && s[i + |chunks[0]|..] == Flatten(chunks[1..])
  {}

  lemma {:induction false} CountIfNone(events: seq<Event>, p: Verdict -> bool)
    requires forall k :: 0 <= k < |events| ==> !p(events[k].verdict)
    ensures CountIf(events, p) == 0
  {
    if events != [] {
      CountIfNone(events[..|events| - 1], p);
    }
  }

  lemma {:induction false} CountIfAll(events: seq<Event>, p: Verdict -> bool)
    requires forall k :: 0 <= k < |events| ==> p(events[k].verdict)
    ensures CountIf(events, p) == |events|
  {
    if events != [] {
      CountIfAll(events[..|events| - 1], p);
    }
  }

  lemma {:induction false} PacketsAll(s: seq<byte>, events: seq<Event>, packets: seq<seq<byte>>)
    requires AcceptInTurn(s, events, packets)
    ensures Packets(s, events) == packets
    decreases |events|
  {
    if events != [] {
      var last := |events| - 1;
      LastInTurn(s, events, packets);
      PacketsLast(s, events);
      hide Packets, AcceptInTurn;
      PacketsAll(s, events[..last], packets[..last]);
      assert packets == packets[..last] + [packets[last]];
    }
  }

  lemma LastInTurn(s: seq<byte>, events: seq<Event>, packets: seq<seq<byte>>)
    requires AcceptInTurn(s, events, packets) && events != []
    ensures var last := |events| - 1; var e := events[last];
      && AcceptInTurn(s, events[..last], packets[..last])
      && |packets| == last + 1
      && Within(e, |s|) && e.verdict.Accepted?
      && s[e.at..e.at + e.verdict.Advance()] == packets[last]
  {}

  lemma AllAccepted(s: seq<byte>, events: seq<Event>, packets: seq<seq<byte>>)
    requires AcceptInTurn(s, events, packets)
    ensures Packets(s, events) == packets
    ensures CountIf(events, CrcErrors()) == CountIf(events, StructureErrors()) == 0
    ensures CountIf(events, OfKind(Telemetry)) == |packets|
    ensures CountIf(events, OfKind(HeartBeat)) == CountIf(events, OfKind(Command)) == 0
  {
    hide CountIf, Packets;
    PacketsAll(s, events, packets);
    CountIfNone(events, CrcErrors());
    CountIfNone(events, StructureErrors());
    CountIfAll(events, OfKind(Telemetry));
    CountIfNone(events, OfKind(HeartBeat));
    CountIfNone(events, OfKind(Command));
  }

  /** Clean round trip: the packets come out as they went in, nothing is left over, nothing counted as an error. */
  lemma CleanStream(packets: seq<seq<byte>>, data: seq<TelemetryData>)
    requires BuiltStream(packets, data)
    ensures var m := Summary(Flatten(packets));
      && m.packets == packets && m.state == WaitForSync && Residual(Flatten(packets)) == []
      && m.crcErrors == m.structureErrors == 0
      && m.telemetryCount == |packets| && m.heartBeatCount == m.commandCount == 0
  {
    hide Classify, ValidFrame, Passes, Payload, Body, Scan, Packets, CountIf, LastKind, LastLength, Flatten;
    forall k | 0 <= k < |packets| ensures ValidFrame(packets[k]) {
      BuiltPacketAccepted(packets[k], data[k], []);
    }
    var s := Flatten(packets);
    assert s[0..] == s;
    CleanScan(s, 0, packets);
    AllAccepted(s, Scan(s, 0).events, packets);
  }

  /** The records that come out of a clean stream are the records that went in, in order. */
  lemma CleanRecords(s: seq<byte>, packets: seq<seq<byte>>, data: seq<TelemetryData>, offsets: seq<nat>,
                     arrived: seq<nat>, records: seq<Option<TelemetryData>>)
    requires BuiltStream(packets, data) && Decoded(s, packets, offsets, arrived, records)
    ensures |records| == |data| && forall k :: 0 <= k < |data| ==> records[k] == Some(data[k])
  {
    hide Passes, Payload, Body, Deserialize, Readable, RecordAt;
    forall k | 0 <= k < |data| ensures records[k] == Some(data[k]) {
      BuiltPacketDecodes(packets[k], data[k]);
      RecordAtFrame(s, packets[k], offsets[k], arrived[k], records[k]);
      ReadableRecord(s, packets[k], offsets[k], arrived[k], records[k]);
    }
  }

  lemma RecordAtFrame(s: seq<byte>, p: seq<byte>, at: nat, arrived: nat, record: Option<TelemetryData>)
    requires RecordAt(s, p, at, arrived, record)
    ensures |p| > PAYLOAD_INDEX
  {}
}
