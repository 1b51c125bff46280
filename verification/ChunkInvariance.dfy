/**
  Splitting does not matter: what two parsers hold after the same bytes, however these were cut into chunks and
  batches, and exactly which decoded records do depend on the cuts. Also what the parser holds between calls.
 */
module ChunkInvariance {
  import opened Crc16
  import opened Sequences
  import opened TelemetryPacket
  import opened Scanner
  import opened ParserModel
  import opened Cuts
  import opened DroneDataSimulator
  import opened SensorDataParser
  import opened StreamTheorems
  import opened Wrappers

  /** The records of readable frames do not depend on when the bytes arrived. */
  lemma SameRecords(s: seq<byte>, packets: seq<seq<byte>>, offsets: seq<nat>,
                    arrived: seq<nat>, records: seq<Option<TelemetryData>>,
                    arrived': seq<nat>, records': seq<Option<TelemetryData>>)
    requires Decoded(s, packets, offsets, arrived, records) && Decoded(s, packets, offsets, arrived', records')
    requires forall p <- packets :: |p| >= PAYLOAD_INDEX ==> Readable(FramePayload(p))
    ensures records == records'
  {
    hide RecordAt, Readable, Deserialize, FramePayload;
    forall k | 0 <= k < |packets| ensures records[k] == records'[k] {
      assert packets[k] in packets;
      RecordAtFrame(s, packets[k], offsets[k], arrived[k], records[k]);
      ReadableRecord(s, packets[k], offsets[k], arrived[k], records[k]);
      ReadableRecord(s, packets[k], offsets[k], arrived'[k], records'[k]);
    }
  }

  /** Any two parsers that were fed the same bytes hold the same, field by field. */
  lemma SameBytesSameState(p: SensorDataParser, q: SensorDataParser)
    requires p.Valid() && q.Valid() && p.fed == q.fed
    ensures p.Core() == q.Core() && p.accumulated == q.accumulated
    ensures (forall f <- p.packets :: |f| >= PAYLOAD_INDEX ==> Readable(FramePayload(f))) ==> p.records == q.records
  {
    hide Summary, Residual, Scan, Decoded, Readable, FramePayload;
    if forall f <- p.packets :: |f| >= PAYLOAD_INDEX ==> Readable(FramePayload(f)) {
      SameRecords(p.fed, p.packets, Offsets(Scan(p.fed, 0).events), p.arrived, p.records, q.arrived, q.records);
    }
  }

  /** Two fresh parsers, two ways to cut one stream into batches of chunks. */
  method FeedTwoWays(a: seq<Batch>, b: seq<Batch>) returns (p: SensorDataParser, q: SensorDataParser)
    requires Stream(a) == Stream(b)
    ensures p.Valid() && q.Valid() && p.fed == q.fed == Stream(a)
    ensures p.Core() == q.Core() && p.accumulated == q.accumulated
    ensures p.records == RecordsOf(a) && q.records == RecordsOf(b)
    ensures (forall f <- p.packets :: |f| >= PAYLOAD_INDEX ==> Readable(FramePayload(f))) ==> p.records == q.records
  {
    hide Summary, Residual, Scan, Decoded, Readable, FramePayload, Stream, RecordsOf;
    p := new SensorDataParser();
    q := new SensorDataParser();
    p.ProcessLoop(a);
    q.ProcessLoop(b);
    SameBytesSameState(p, q);
  }

  /** Clean round trip: built packets, cut in any way, come out as packets and as records, with nothing left over. */
  method CleanRun(packets: seq<seq<byte>>, data: seq<TelemetryData>, batches: seq<Batch>)
    returns (p: SensorDataParser)
    requires BuiltStream(packets, data) && Stream(batches) == Flatten(packets)
    ensures p.Valid() && p.packets == packets && p.accumulated == [] && p.crcErrors == p.structureErrors == 0
    ensures |p.records| == |data| && forall k :: 0 <= k < |data| ==> p.records[k] == Some(data[k])
  {
    hide Summary, Residual, Scan, Decoded, Flatten, Stream, RecordsOf, BuiltStream;
    p := new SensorDataParser();
    p.ProcessLoop(batches);
    assert p.fed == Flatten(packets);
    CleanStream(packets, data);
    CleanRecords(p.fed, packets, data, Offsets(Scan(p.fed, 0).events), p.arrived, p.records);
  }

  // ---- Frames whose id length does not fit ---------------------------------------------------------------

  lemma {:induction false} OffsetsFirst(e: Event, rest: seq<Event>)
    requires e.verdict.Accepted?
    ensures Offsets([e] + rest) != [] && Offsets([e] + rest)[0] == e.at
    decreases |rest|
  {
    if rest == [] {
      OffsetsPush([], e);
      assert [e] + rest == [] + [e];
    } else {
      var front, last := rest[..|rest| - 1], rest[|rest| - 1];
      OffsetsFirst(e, front);
      OffsetsPush([e] + front, last);
      assert [e] + rest == ([e] + front) + [last];
    }
  }

  lemma FirstOffset(s: seq<byte>, p: seq<byte>)
    requires |p| <= |s| && s[..|p|] == p && ValidFrame(p)
    ensures Offsets(Scan(s, 0).events) != [] && Offsets(Scan(s, 0).events)[0] == 0
  {
    hide ValidFrame, Scan, Offsets;
    assert s[0..0 + |p|] == p;
    FrameStep(s, 0, p);
    OffsetsFirst(Event(0, Accepted(|p| - OVERHEAD)), Scan(s, 0 + |p|).events);
  }

  lemma FirstRecord(s: seq<byte>, packets: seq<seq<byte>>, offsets: seq<nat>, arrived: seq<nat>,
                    records: seq<Option<TelemetryData>>)
    requires Decoded(s, packets, offsets, arrived, records) && offsets != [] && offsets[0] == 0
    ensures records != [] && arrived != [] && PAYLOAD_INDEX < arrived[0] <= |s|
    ensures records[0] == Deserialize(s[PAYLOAD_INDEX..arrived[0]])
  {}

  /** What follows such a frame in the buffer makes up what its own payload lacks. */
  lemma UnreadableAlone(p: seq<byte>, rest: seq<byte>)
    requires ValidFrame(p) && !Readable(FramePayload(p)) && |rest| >= 296
    ensures Deserialize((p + rest)[PAYLOAD_INDEX..|p|]) == None
    ensures Deserialize((p + rest)[PAYLOAD_INDEX..|p + rest|]).Some?
  {}

  /** One batch of two chunks, the first a well-formed frame. */
  method FeedFrameFirst(p: seq<byte>, rest: seq<byte>) returns (a: SensorDataParser)
    requires ValidFrame(p)
    ensures a.Valid() && fresh(a) && a.fed == p + rest
    ensures a.arrived != [] && a.arrived[0] == |p + rest|
  {
    hide Summary, Residual, Scan, Decoded, Flatten, ValidFrame, Offsets;
    FlattenOne(p);
    FlattenPush([p], rest);
    assert [p] + [rest] == [p, rest];
    Cut(p, rest);
    FirstOffset(p + rest, p);
    a := new SensorDataParser();
    ghost var _ := a.ProcessBatch([p, rest]);
    assert a.fed == p + rest;
    FirstRecord(a.fed, a.packets, Offsets(Scan(a.fed, 0).events), a.arrived, a.records);
  }

  /**
    For every accepted frame that is not readable there is a stream that begins with it and whose record of it depends
    on how the stream was cut: cut behind the frame, the reader runs past the end; in one batch, it does not.
   */
  method UnreadableDependsOnCuts(p: seq<byte>) returns (a: SensorDataParser, b: SensorDataParser)
    requires ValidFrame(p) && !Readable(FramePayload(p))
    ensures a.Valid() && b.Valid() && a.fed == b.fed && a.Core() == b.Core()
    ensures p <= a.fed && a.records != [] && b.records != []
    ensures a.records[0] == None && b.records[0].Some?
  {
    hide Summary, Residual, Scan, Decoded, Readable, FramePayload, Flatten, Deserialize, ValidFrame, Offsets;
    var rest: seq<byte> := seq(296, _ => 0);
    a := FeedFrameFirst(p, []);
    FlattenOne(rest);
    assert a.fed == p;
    ghost var _ := a.ProcessBatch([rest]);
    b := FeedFrameFirst(p, rest);
    Cut(p, rest);
    FirstOffset(p + rest, p);
    UnreadableAlone(p, rest);
    FirstRecord(a.fed, a.packets, Offsets(Scan(a.fed, 0).events), a.arrived, a.records);
    FirstRecord(b.fed, b.packets, Offsets(Scan(b.fed, 0).events), b.arrived, b.records);
  }

  /** Such frames exist. */
  method UnreadableFrame() returns (p: seq<byte>)
    ensures ValidFrame(p) && !Readable(FramePayload(p))
  {
    hide Passes;
    var zeros: seq<byte> := seq(39, _ => 0);
    var body: seq<byte> := [HEADER_FIRST, HEADER_SECOND, TYPE_TELEMETRY, 0, 40, 255] + zeros;
    var crc := CalculateCrc16(body);
    ChecksumAppended(body, crc);
    p := body + [((crc >> 8) & 0xFF) as byte, (crc & 0xFF) as byte];
    assert p[3] == 0 && p[4] == 40 && p[5] == 255;
  }

  // ---- Frames that are decoded late ----------------------------------------------------------------------

  /** A frame whose own payload, with the checksum behind it, holds all that is read, settles in every stream. */
  lemma ReadableSettles(s: seq<byte>, m: nat)
    requires m < |Scan(s, 0).events| && Scan(s, 0).events[m].verdict.Accepted?
    requires var e := Scan(s, 0).events[m];
      Readable(View(s, e.at + PAYLOAD_INDEX, e.at + e.verdict.Advance()))
    ensures Settles(s, Scan(s, 0).events, m)
  {
    hide Scan, SettledAt, Readable, View, Deserialize;
    var events := Scan(s, 0).events;
    var i, a, b := events[m].at + PAYLOAD_INDEX, events[m].at + events[m].verdict.Advance(), SettledAt(events[..m + 1]);
    SettledRange(s, m);
    AcceptedNeeds(events[m].verdict);
    ViewGrows(s, i, a, b);
    ViewGrows(s, i, a, |s|);
    ReadableDecodes(View(s, i, a));
    ReadableDecodes(View(s, i, b));
    ReadableDecodes(View(s, i, |s|));
  }

  lemma FragmentFails(s: seq<byte>)
    requires |s| == MAX_FRAME && s[..5] == Fragment() && !Passes(s)
    ensures Classify(s) == BadChecksum(80)
  {
    hide Passes, LengthField;
    FragmentLength(s);
    assert s[..MAX_FRAME] == s;
  }

  /** Bytes that follow the given ones up to a full frame that fails. */
  lemma FailingEnd(front: seq<byte>) returns (y: seq<byte>)
    requires |front| < MAX_FRAME
    ensures |front + y| == MAX_FRAME && !Passes(front + y)
  {
    hide Passes;
    y := seq(MAX_FRAME - |front|, _ => 0);
    if Passes(front + y) {
      FlipFails(front + y, MAX_FRAME - 1, 0);
      var flipped := Flipped(front + y, MAX_FRAME - 1, 0);
      y := flipped[|front|..];
      assert front + y == flipped;
    }
  }

  /**
    Not being readable alone does not make a frame depend on the cuts: behind a fragment that is waited for, a frame
    is decoded only when enough bytes have come in any case.
   */
  lemma LateFrame() returns (s: seq<byte>, m: nat)
    ensures m < |Scan(s, 0).events| && Scan(s, 0).events[m].verdict.Accepted?
    ensures var e := Scan(s, 0).events[m]; var i := e.at + PAYLOAD_INDEX;
      && !Readable(View(s, i, e.at + e.verdict.Advance())) && Readable(View(s, i, |s|))
    ensures Settles(s, Scan(s, 0).events, m)
  {
    hide Scan, Passes, Classify, SettledAt;
    var x := Fragment();
    var p := ShortIdFrame();
    var y := FailingEnd(x + p);
    s := x + p + y;
    assert s[..5] == x;
    FragmentFails(s);
    assert s[0..] == s;
    forall j | 0 < j < 5 ensures Classify(s[j..]) == NoHeader {
      InsideFragment(s, j);
    }
    m := RecoveryAfterNoise(x, p, y);
    FirstEvent(s, 0);
    var events := Scan(s, 0).events;
    SettledRange(s, m);
    SettledBound(events[..m + 1], SettledAt(events[..m + 1]));
    assert events[..m + 1][0] == Event(0, BadChecksum(80));
    assert SettledAt(events[..m + 1]) == |s|;
    assert View(s, 10, 52)[0] == View(s, 10, 87)[0] == p[5];
  }

  /** A well-formed frame that claims an id of five bytes: 46 bytes would be read, and 42 are there. */
  lemma ShortIdFrame() returns (p: seq<byte>)
    ensures ValidFrame(p) && |p| == 47 && p[5] == 5
  {
    hide Passes;
    var zeros: seq<byte> := seq(39, _ => 0);
    var body: seq<byte> := [HEADER_FIRST, HEADER_SECOND, TYPE_TELEMETRY, 0, 40, 5] + zeros;
    var end := Sealed(body);
    p := body + end;
    assert p[3] == 0 && p[4] == 40 && p[5] == 5;
  }

  // ---- Between calls -------------------------------------------------------------------------------------

  /** What is kept back in each state, and that it stays below a full frame unless nobody handles it. */
  lemma KeptBack(p: SensorDataParser)
    requires p.Valid()
    ensures p.fed[..|p.fed| - |p.accumulated|] + p.accumulated == p.fed
    ensures |p.accumulated| <= 86 || Classify(p.accumulated).Unhandled?
    ensures Fits(p.state, p.accumulated)
    ensures p.state == WaitForSync ==> p.accumulated == [] || p.accumulated == [0xAA]
    ensures Open(p.state) ==> p.kind == TypeOf(p.accumulated[TYPE_INDEX])
    ensures p.state == ReadPayload ==> p.expectedLength == LengthField(p.accumulated)
  {
    hide Decoded, Passes, Scan, Packets, CountIf, LastKind, LastLength;
    var s := p.fed;
    ScanSound(s, 0);
    RestFits(Residual(s));
  }

  /** No header and no counted type is lost: every one ends as a packet, as an error, or is still open. */
  lemma Accounting(p: SensorDataParser)
    requires p.Valid()
    ensures p.headersFound
      == |p.packets| + p.crcErrors + p.structureErrors + (if p.state != WaitForSync then 1 else 0)
    ensures p.unknownTypes <= p.crcErrors
    ensures p.telemetryCount + p.heartBeatCount + p.commandCount
      == |p.packets| + (p.crcErrors - p.unknownTypes) + p.structureErrors + (if Open(p.state) then 1 else 0)
  {
    hide Classify, Scan, CountIf, Packets, Decoded, Summary;
    var o := Scan(p.fed, 0);
    SummaryIs(p.fed);
    ScanSound(p.fed, 0);
    DecidedKinds(p.fed, o.events, o.stop);
    AccountingAt(p.fed, o.events, p.state, Residual(p.fed));
    UnknownAmongErrors(o.events);
  }

  lemma {:induction false} UnknownAmongErrors(events: seq<Event>)
    ensures CountIf(events, UnknownTypes()) <= CountIf(events, CrcErrors())
  {
    if events != [] {
      UnknownAmongErrors(events[..|events| - 1]);
    }
  }

  /** Behind a complete frame of a type nobody handles, every later call only appends. */
  method Halted(p: SensorDataParser, chunks: seq<seq<byte>>)
    requires p.Valid() && Classify(p.accumulated).Unhandled?
    modifies p
    ensures p.Valid() && p.Core() == old(p.Core()) && p.accumulated == old(p.accumulated) + Flatten(chunks)
    ensures p.records == old(p.records) && p.headersFound == old(p.headersFound)
    ensures Classify(p.accumulated).Unhandled?
  {
    hide Summary, Residual, Scan, Decoded, Flatten, Classify, CountIf, Offsets;
    var s, b := p.fed, Flatten(chunks);
    HaltedSummary(s, b);
    DecodedExtends(s, b, p.packets, Offsets(Scan(s, 0).events), p.arrived, p.records);
    ghost var _ := p.ProcessBatch(chunks);
    SameArrivals(p.fed, p.packets, Offsets(Scan(p.fed, 0).events), old(p.arrived), old(p.records), p.arrived, p.records);
  }

  lemma SameArrivals(s: seq<byte>, packets: seq<seq<byte>>, offsets: seq<nat>,
                     arrived: seq<nat>, records: seq<Option<TelemetryData>>,
                     arrived': seq<nat>, records': seq<Option<TelemetryData>>)
    requires Decoded(s, packets, offsets, arrived, records) && Decoded(s, packets, offsets, arrived', records')
    requires Grown(arrived, arrived', |s|)
    ensures records == records'
  {
    hide Deserialize;
    assert arrived == arrived';
    forall k | 0 <= k < |packets| ensures records[k] == records'[k] {
      assert RecordAt(s, packets[k], offsets[k], arrived[k], records[k]);
      assert RecordAt(s, packets[k], offsets[k], arrived'[k], records'[k]);
    }
  }

  lemma HaltedSummary(s: seq<byte>, b: seq<byte>)
    requires Classify(Residual(s)).Unhandled?
    ensures Scan(s + b, 0) == Scan(s, 0)
    ensures Residual(s + b) == Residual(s) + b && Summary(s + b) == Summary(s)
    ensures Classify(Residual(s + b)) == Classify(Residual(s))
  {
    hide Passes, Scan;
    UnhandledAbsorbs(s, b);
    SuffixAppend(s, b, Scan(s, 0).stop);
    ScanSound(s, 0);
    RestFits(Residual(s));
    RestFits(Residual(s + b));
    MachineExtends(s, Scan(s, 0).events, RestState(Residual(s)), Residual(s), b);
    ClassifyExtends(Residual(s), b);
  }
}
