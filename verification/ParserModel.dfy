/**
  What the parser's fields must hold, as a function of the bytes fed so far: the reference scanner's decisions, plus
  what the parser already knows about the frame it is waiting for.
 */
module ParserModel {
  import opened Crc16
  import opened Sequences
  import opened TelemetryPacket
  import opened Scanner
  import opened Wrappers

  datatype ParserState = WaitForSync | ReadType | ReadLength | ReadPayload

  datatype Machine = Machine(
    state: ParserState, kind: MessageType, expectedLength: nat, packets: seq<seq<byte>>,
    crcErrors: nat, structureErrors: nat, telemetryCount: nat, heartBeatCount: nat, commandCount: nat)

  /** The type and the length that decided frames leave behind in the machine. */
  function LastKind(events: seq<Event>): MessageType {
    if events == [] then Unknown
    else
      var kind := events[|events| - 1].verdict.Kind();
      if kind != Unknown then kind else LastKind(events[..|events| - 1])
  }

  function LastLength(events: seq<Event>): nat {
    if events == [] then 0
    else
      match events[|events| - 1].verdict
      case BadLength(_, n) => n
      case BadChecksum(n) => n
      case Accepted(n) => n
      case _ => LastLength(events[..|events| - 1])
  }

  /** What the unread bytes must look like in each state. */
  predicate Fits(st: ParserState, view: seq<byte>) {
    && (!st.WaitForSync? ==> HasHeader(view))
    && (st.ReadLength? || st.ReadPayload? ==> |view| > TYPE_INDEX && TypeOf(view[TYPE_INDEX]) != Unknown)
    && (st.ReadPayload? ==> |view| >= PAYLOAD_INDEX && LengthInRange(LengthField(view)))
  }

  /** A frame whose type has been read and counted, but whose fate is open. */
  predicate Open(st: ParserState) {
    st.ReadLength? || st.ReadPayload?
  }

  function Pending(st: ParserState, view: seq<byte>, kind: MessageType): nat
    requires Fits(st, view)
  {
    if Open(st) && TypeOf(view[TYPE_INDEX]) == kind then 1 else 0
  }

  /** The whole machine after the given decisions over stream s, in state st with `view` unread. */
  function MachineAt(s: seq<byte>, events: seq<Event>, st: ParserState, view: seq<byte>): Machine
    requires AllWithin(events, |s|) && Fits(st, view)
  {
    Machine(
      st,
      if Open(st) then TypeOf(view[TYPE_INDEX]) else LastKind(events),
      if st.ReadPayload? then LengthField(view) else LastLength(events),
      Packets(s, events),
      CountIf(events, CrcErrors()),
      CountIf(events, StructureErrors()),
      CountIf(events, OfKind(Telemetry)) + Pending(st, view, Telemetry),
      CountIf(events, OfKind(HeartBeat)) + Pending(st, view, HeartBeat),
      CountIf(events, OfKind(Command)) + Pending(st, view, Command))
  }

  /** The state between calls, from the bytes kept back. */
  function RestState(residual: seq<byte>): ParserState {
    if |residual| < 2 then WaitForSync
    else if |residual| == 2 then ReadType
    else if |residual| < PAYLOAD_INDEX then ReadLength
    else ReadPayload
  }

  lemma RestFits(residual: seq<byte>)
    requires Classify(residual).Stops()
    ensures Fits(RestState(residual), residual)
  {}

  /** The whole state of the parser after being fed s: a function of s alone. */
  ghost function Summary(s: seq<byte>): Machine {
    var o := Scan(s, 0);
    ScanSound(s, 0);
    RestFits(s[o.stop..]);
    MachineAt(s, o.events, RestState(s[o.stop..]), s[o.stop..])
  }

  ghost function Residual(s: seq<byte>): (r: seq<byte>) {
    s[Scan(s, 0).stop..]
  }

  lemma SummaryIs(s: seq<byte>)
    ensures var o, r := Scan(s, 0), Residual(s);
      && AllWithin(o.events, |s|)
      && r == s[o.stop..] && Classify(r).Stops() && Fits(RestState(r), r)
      && Summary(s) == MachineAt(s, o.events, RestState(r), r)
      && Summary(s).packets == Packets(s, o.events)
  {
    hide Classify, Scan, MachineAt, Packets;
    ScanSound(s, 0);
    RestFits(Residual(s));
    SoundWithin(s, 0, Scan(s, 0).events, Scan(s, 0).stop);
    MachinePackets(s, Scan(s, 0).events, RestState(Residual(s)), Residual(s));
  }

  lemma MachinePackets(s: seq<byte>, events: seq<Event>, st: ParserState, view: seq<byte>)
    requires AllWithin(events, |s|) && Fits(st, view)
    ensures MachineAt(s, events, st, view).packets == Packets(s, events)
  {
    hide Packets, CountIf, LastKind, LastLength;
  }

  // ---- Following the scanner -----------------------------------------------------------------------------

  /** The scanner, having made the given decisions, stands at the first unread byte. */
  ghost predicate Follows(s: seq<byte>, events: seq<Event>, view: seq<byte>) {
    && |view| <= |s|
    && s[|s| - |view|..] == view
    && AllWithin(events, |s| - |view|)
    && var rest := Scan(s, |s| - |view|);
       Scan(s, 0) == Outcome(events + rest.events, rest.stop)
  }

  lemma FollowsStart(s: seq<byte>, b: seq<byte>)
    ensures Follows(s + b, Scan(s, 0).events, Residual(s) + b)
  {
    ScanSound(s, 0);
    ScanExtends(s, b, 0);
    hide Classify, Scan, Sound, AllWithin;
    var o := Scan(s, 0);
    SoundWithin(s, 0, o.events, o.stop);
    SuffixAppend(s, b, o.stop);
  }

  lemma FollowsEnd(s: seq<byte>, events: seq<Event>, view: seq<byte>)
    requires Follows(s, events, view) && Classify(view).Stops()
    ensures Scan(s, 0).events == events && Residual(s) == view
  {}

  /** Skipping bytes that start no header. */
  lemma FollowsSlide(s: seq<byte>, events: seq<Event>, view: seq<byte>, k: nat)
    requires Follows(s, events, view) && k <= |view|
    requires forall j :: 0 <= j < k ==> Classify(view[j..]) == NoHeader
    ensures Follows(s, events, view[k..])
  {
    hide Classify;
    var i := |s| - |view|;
    forall j | i <= j < i + k ensures Classify(s[j..]) == NoHeader {
      assert s[j..] == view[j - i..];
    }
    SlideOver(s, i, k);
    assert s[i + k..] == view[k..];
  }

  /** Deciding the header at the front of the view. */
  lemma FollowsDecision(s: seq<byte>, events: seq<Event>, view: seq<byte>) returns (e: Event)
    requires Follows(s, events, view) && Classify(view).Decided()
    ensures |view| <= |s| && e == Event(|s| - |view|, Classify(view))
    ensures e.verdict.Advance() <= |view| && Within(e, |s|)
    ensures Follows(s, events + [e], view[e.verdict.Advance()..])
  {
    hide Classify;
    e := Event(|s| - |view|, Classify(view));
    var n := e.verdict.Advance();
    assert s[|s| - |view| + n..] == view[n..];
    var rest := Scan(s, |s| - |view| + n);
    assert events + ([e] + rest.events) == events + [e] + rest.events;
  }

  /** A rejected header: the code drops both header bytes, which skips no other header. */
  lemma FollowsRejection(s: seq<byte>, events: seq<Event>, view: seq<byte>) returns (e: Event)
    requires Follows(s, events, view) && Classify(view).Decided() && !Classify(view).Accepted?
    ensures |view| <= |s| && e == Event(|s| - |view|, Classify(view)) && Within(e, |s|)
    ensures Follows(s, events + [e], view[1..]) && Follows(s, events + [e], view[2..])
  {
    e := FollowsDecision(s, events, view);
    hide Passes;
    assert Classify(view[1..]) == NoHeader;
    FollowsSlide(s, events + [e], view[1..], 1);
    assert view[1..][1..] == view[2..];
  }

  /** What one more decision does to the machine, back in the state that waits for a header. */
  lemma MachineAfter(s: seq<byte>, events: seq<Event>, e: Event, view: seq<byte>)
    requires AllWithin(events, |s|) && Within(e, |s|) && AllWithin(events + [e], |s|)
    ensures var m, m' := MachineAt(s, events, WaitForSync, []), MachineAt(s, events + [e], WaitForSync, view);
      && m'.packets == m.packets + (if e.verdict.Accepted? then [s[e.at..e.at + e.verdict.Advance()]] else [])
      && m'.crcErrors == m.crcErrors + (if e.verdict.UnknownType? || e.verdict.BadChecksum? then 1 else 0)
      && m'.structureErrors == m.structureErrors + (if e.verdict.BadLength? then 1 else 0)
      && m'.telemetryCount == m.telemetryCount + (if e.verdict.Kind() == Telemetry then 1 else 0)
      && m'.heartBeatCount == m.heartBeatCount + (if e.verdict.Kind() == HeartBeat then 1 else 0)
      && m'.commandCount == m.commandCount + (if e.verdict.Kind() == Command then 1 else 0)
      && m'.kind == (if e.verdict.Kind() != Unknown then e.verdict.Kind() else m.kind)
      && m'.expectedLength == (match e.verdict
                               case BadLength(_, n) => n
                               case BadChecksum(n) => n
                               case Accepted(n) => n
                               case _ => m.expectedLength)
  {
    assert (events + [e])[..|events|] == events;
    PacketsPush(s, events, e);
    CountIfPush(events, e, CrcErrors());
    CountIfPush(events, e, StructureErrors());
    CountIfPush(events, e, OfKind(Telemetry));
    CountIfPush(events, e, OfKind(HeartBeat));
    CountIfPush(events, e, OfKind(Command));
  }

  /** Bytes appended behind the unread ones change nothing the machine holds. */
  lemma MachineExtends(s: seq<byte>, events: seq<Event>, st: ParserState, view: seq<byte>, b: seq<byte>)
    requires AllWithin(events, |s|) && Fits(st, view)
    ensures AllWithin(events, |s + b|) && Fits(st, view + b)
    ensures MachineAt(s + b, events, st, view + b) == MachineAt(s, events, st, view)
  {
    PacketsExtend(s, b, events);
  }

  // ---- Decoded records -----------------------------------------------------------------------------------

  /** The part of a frame that is handed to the payload reader. */
  function FramePayload(p: seq<byte>): seq<byte>
    requires |p| >= PAYLOAD_INDEX
  {
    p[PAYLOAD_INDEX..]
  }

  /**
    The record decoded from frame p at the given offset: the payload reader is handed everything from the payload to
    the end of the buffer, that is, to the last byte that had arrived.
   */
  ghost predicate RecordAt(s: seq<byte>, p: seq<byte>, at: nat, arrived: nat, record: Option<TelemetryData>) {
    && PAYLOAD_INDEX < |p| && at + |p| <= arrived <= |s|
    && s[at..at + |p|] == p
    && record == Deserialize(s[at + PAYLOAD_INDEX..arrived])
  }

  /** One record per accepted frame. */
  ghost predicate Decoded(s: seq<byte>, packets: seq<seq<byte>>, offsets: seq<nat>, arrived: seq<nat>,
                          records: seq<Option<TelemetryData>>) {
    && |packets| == |offsets| == |arrived| == |records|
    && forall k :: 0 <= k < |packets| ==> RecordAt(s, packets[k], offsets[k], arrived[k], records[k])
  }

  lemma RecordAtExtends(s: seq<byte>, b: seq<byte>, p: seq<byte>, at: nat, arrived: nat, record: Option<TelemetryData>)
    requires RecordAt(s, p, at, arrived, record)
    ensures RecordAt(s + b, p, at, arrived, record)
  {
    hide Deserialize;
    SliceAppend(s, b, at, at + |p|);
    SliceAppend(s, b, at + PAYLOAD_INDEX, arrived);
  }

  lemma DecodedExtends(s: seq<byte>, b: seq<byte>, packets: seq<seq<byte>>, offsets: seq<nat>, arrived: seq<nat>,
                       records: seq<Option<TelemetryData>>)
    requires Decoded(s, packets, offsets, arrived, records)
    ensures Decoded(s + b, packets, offsets, arrived, records)
  {
    hide RecordAt;
    forall k | 0 <= k < |packets| ensures RecordAt(s + b, packets[k], offsets[k], arrived[k], records[k]) {
      RecordAtExtends(s, b, packets[k], offsets[k], arrived[k], records[k]);
    }
  }

  lemma DecodedPush(s: seq<byte>, packets: seq<seq<byte>>, offsets: seq<nat>, arrived: seq<nat>,
                    records: seq<Option<TelemetryData>>, p: seq<byte>, at: nat, n: nat, record: Option<TelemetryData>)
    requires Decoded(s, packets, offsets, arrived, records) && RecordAt(s, p, at, n, record)
    ensures Decoded(s, packets + [p], offsets + [at], arrived + [n], records + [record])
  {}

  /** When everything the reader touches lies in the frame, the bytes behind the frame do not matter. */
  lemma ReadableRecord(s: seq<byte>, p: seq<byte>, at: nat, arrived: nat, record: Option<TelemetryData>)
    requires RecordAt(s, p, at, arrived, record) && Readable(FramePayload(p))
    ensures record == Deserialize(FramePayload(p))
  {
    hide Deserialize, Readable;
    var view := s[at + PAYLOAD_INDEX..arrived];
    assert view == FramePayload(p) + view[|p| - PAYLOAD_INDEX..];
    DeserializeExtends(FramePayload(p), view[|p| - PAYLOAD_INDEX..]);
  }

  /** The arrival counts noted since `before` are all n. */
  ghost predicate Grown(before: seq<nat>, after: seq<nat>, n: nat) {
    && |before| <= |after| && after[..|before|] == before
    && forall k :: |before| <= k < |after| ==> after[k] == n
  }

  // ---- Accounting ----------------------------------------------------------------------------------------

  lemma AccountingAt(s: seq<byte>, events: seq<Event>, st: ParserState, view: seq<byte>)
    requires AllWithin(events, |s|) && Fits(st, view)
    requires forall k :: 0 <= k < |events| ==> events[k].verdict.Decided()
    requires forall k :: 0 <= k < |events| && events[k].verdict.BadLength? ==> events[k].verdict.kind != Unknown
    ensures var m := MachineAt(s, events, st, view);
      && |events| == |m.packets| + m.crcErrors + m.structureErrors
      && m.telemetryCount + m.heartBeatCount + m.commandCount
         == |m.packets| + (m.crcErrors - CountIf(events, UnknownTypes())) + m.structureErrors
            + (if Open(st) then 1 else 0)
  {
    EveryEventCounted(events);
    hide CountIf, Packets;
  }

  lemma DecidedKinds(s: seq<byte>, events: seq<Event>, stop: nat)
    requires Sound(s, 0, events, stop)
    ensures forall k :: 0 <= k < |events| ==> events[k].verdict.Decided()
    ensures forall k :: 0 <= k < |events| && events[k].verdict.BadLength? ==> events[k].verdict.kind != Unknown
  {}
}
