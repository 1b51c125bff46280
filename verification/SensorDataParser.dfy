/**
  The streaming parser: a resumable four-state machine over a growing byte buffer. Its invariant says that every field
  is a function of the bytes fed so far, namely what the reference scanner finds in them.
 */
module SensorDataParser {
  import opened Crc16
  import opened Sequences
  import opened TelemetryPacket
  import opened Scanner
  import opened ParserModel
  import opened Cuts
  import opened Wrappers

  class SensorDataParser {
    var accumulated: seq<byte>
    var state: ParserState
    var expectedLength: nat
    var kind: MessageType

    var packets: seq<seq<byte>>
    var crcErrors: nat
    var structureErrors: nat
    var telemetryCount: nat
    var heartBeatCount: nat
    var commandCount: nat

    /** What was pushed to the queue of decoded telemetry; None is a read past the end of the buffer. */
    var records: seq<Option<TelemetryData>>

    /** All bytes ever taken from the queue of raw data, and how many of them there were at each decoding. */
    ghost var fed: seq<byte>
    ghost var arrived: seq<nat>

    /** How often the search has found a header, and how often the type behind it was unknown. */
    ghost var headersFound: nat
    ghost var unknownTypes: nat

    ghost function Core(): Machine
      reads this
    {
      Machine(state, kind, expectedLength, packets, crcErrors, structureErrors,
              telemetryCount, heartBeatCount, commandCount)
    }

    /** Between calls: the whole state is determined by the bytes fed, however they were split. */
    ghost predicate Valid()
      reads this
    {
      && accumulated == Residual(fed)
      && Core() == Summary(fed)
      && Decoded(fed, packets, Offsets(Scan(fed, 0).events), arrived, records)
      && Found(Scan(fed, 0).events)
    }

    /** Inside a call, with `view` unread and the given decisions made. */
    ghost predicate Running(view: seq<byte>, events: seq<Event>)
      reads this
    {
      && Follows(fed, events, view)
      && AllWithin(events, |fed|)
      && Fits(state, view)
      && Core() == MachineAt(fed, events, state, view)
      && Decoded(fed, packets, Offsets(events), arrived, records)
      && Found(events)
    }

    /** Every header the search found is decided, but for the one the machine stands at. */
    ghost predicate Found(events: seq<Event>)
      reads this
    {
      && headersFound == |events| + (if state == WaitForSync then 0 else 1)
      && unknownTypes == CountIf(events, UnknownTypes())
    }

    /** The frame at the front has been accepted and decoded from all that follows, or one byte of it was dropped. */
    ghost predicate Processed(view: seq<byte>, total: nat, m: Machine, before: seq<Option<TelemetryData>>,
                              rest: seq<byte>)
      requires 5 <= total <= |view|
      reads this
    {
      if Passes(view[..total]) then
        && rest == view[total..]
        && Core() == m.(state := WaitForSync, packets := m.packets + [view[..total]])
        && records == before + [Deserialize(view[5..])]
      else
        && rest == view[1..]
        && Core() == m.(state := WaitForSync, crcErrors := m.crcErrors + 1)
        && records == before
    }

    function Rank(): (n: nat)
      reads this
      ensures n <= 3
    {
      match state
      case WaitForSync => 3
      case ReadType => 2
      case ReadLength => 1
      case ReadPayload => 0
    }

    /** Falls with every iteration that reports a change. */
    function Measure(view: seq<byte>): nat
      reads this
    {
      4 * |view| + Rank()
    }

    constructor ()
      ensures Valid() && fed == [] && arrived == [] && accumulated == [] && packets == [] && records == []
      ensures Core() == Machine(WaitForSync, Unknown, 0, [], 0, 0, 0, 0, 0) && headersFound == unknownTypes == 0
    {
      hide Summary, Residual, Decoded;
      accumulated, state, expectedLength, kind := [], WaitForSync, 0, Unknown;
      packets, crcErrors, structureErrors := [], 0, 0;
      telemetryCount, heartBeatCount, commandCount := 0, 0, 0;
      records, fed, arrived := [], [], [];
      headersFound, unknownTypes := 0, 0;
      new;
      NothingFed();
    }

    /** The loop of the parsing thread, over the batches its queue hands out one after the other. */
    method ProcessLoop(batches: seq<Batch>)
      requires Valid()
      modifies this
      ensures Valid()
      ensures fed == old(fed) + Stream(batches)
      ensures old(fed) == [] ==> records == RecordsOf(batches)
    {
      hide Summary, Residual, Scan, Offsets, Decoded, Found, Stream, Arrivals, RecordsOf, Grown, AcceptedBy;
      NothingArrived(fed, packets, arrived, records);
      for k := 0 to |batches|
        invariant Valid() && fed == old(fed) + Stream(batches[..k])
        invariant old(fed) == [] ==> arrived == Arrivals(batches[..k])
      {
        ghost var before := arrived;
        ghost var _ := ProcessBatch(batches[k]);
        assert batches[..k + 1] == batches[..k] + [batches[k]];
        StreamPush(batches[..k], batches[k]);
        Associative(old(fed), Stream(batches[..k]), Flatten(batches[k]));
        if old(fed) == [] {
          assert fed == Stream(batches[..k + 1]);
          DecodedLength(fed, packets, arrived, records);
          ArrivalsGrow(batches[..k], batches[k], before, arrived);
        }
      }
      assert batches[..|batches|] == batches;
      if old(fed) == [] {
        assert fed == Stream(batches);
        RecordsFollow(batches, packets, arrived, records);
      }
    }

    /** The batch of chunks popped from the raw-data queue is appended, then the machine runs once. */
    method ProcessBatch(chunks: seq<seq<byte>>) returns (ghost iterations: nat)
      requires Valid()
      modifies this
      ensures Valid()
      ensures fed == old(fed) + Flatten(chunks) && Grown(old(arrived), arrived, |fed|)
      ensures iterations <= 4 * |old(accumulated) + Flatten(chunks)| + 4
    {
      hide Classify, Passes, ParserModel.Summary, Scan, Decoded, CountIf;
      for k := 0 to |chunks|
        invariant accumulated == old(accumulated) + Flatten(chunks[..k])
        invariant fed == old(fed) && arrived == old(arrived) && records == old(records) && Core() == old(Core())
        invariant headersFound == old(headersFound) && unknownTypes == old(unknownTypes)
      {
        FlattenPush(chunks[..k], chunks[k]);
        assert chunks[..k + 1] == chunks[..k] + [chunks[k]];
        accumulated := accumulated + chunks[k];
      }
      assert chunks[..|chunks|] == chunks;
      ghost var added := Flatten(chunks);
      ghost var events := Scan(fed, 0).events;
      StartRunning(fed, added, Core());
      DecodedExtends(fed, added, packets, Offsets(events), arrived, records);
      fed := fed + added;
      iterations := ProcessAccumulatedData(events);
    }

    /** The while loop over a view of the buffer, and the single erase behind it. */
    method ProcessAccumulatedData(ghost decided: seq<Event>) returns (ghost iterations: nat)
      requires Running(accumulated, decided)
      modifies this
      ensures fed == old(fed) && Valid() && Grown(old(arrived), arrived, |fed|)
      ensures iterations <= 4 * |old(accumulated)| + 4
    {
      hide Classify, Decoded, ParserModel.Summary, MachineAt, Scan, Offsets, CountIf, Fits, Follows, AllWithin, RestState;
      FollowsSuffix(fed, decided, accumulated);
      var view := accumulated;
      var stateChanged := true;
      ghost var events := decided;
      iterations := 0;
      while stateChanged && view != []
        invariant fed == old(fed) && accumulated == old(accumulated)
        invariant Running(view, events) && |view| <= |accumulated|
        invariant Grown(old(arrived), arrived, |fed|)
        invariant !stateChanged ==> Classify(view).Stops() && state == RestState(view)
        invariant iterations + (if stateChanged then Measure(view) + 1 else 0) <= 4 * |accumulated| + 4
        decreases if stateChanged then Measure(view) + 1 else 0
      {
        iterations := iterations + 1;
        view, stateChanged, events := RunState(view, events);
      }
      EndRunning(fed, events, Core(), view, accumulated);
      var processed := |accumulated| - |view|;
      accumulated := accumulated[processed..];
    }

    /** The switch over the state. */
    method RunState(view: seq<byte>, ghost events: seq<Event>)
      returns (rest: seq<byte>, stateChanged: bool, ghost decided: seq<Event>)
      requires Running(view, events) && view != []
      modifies this
      ensures fed == old(fed) && accumulated == old(accumulated) && Running(rest, decided) && |rest| <= |view|
      ensures Grown(old(arrived), arrived, |fed|)
      ensures stateChanged ==> Measure(rest) < old(Measure(view))
      ensures !stateChanged ==> Classify(rest).Stops() && state == RestState(rest)
    {
      hide Classify, Follows, Decoded, MachineAt, Offsets, CountIf, AllWithin, Fits;
      match state {
        case WaitForSync => rest, stateChanged, decided := AwaitHeader(view, events);
        case ReadType => rest, stateChanged, decided := ExamineType(view, events);
        case ReadLength => rest, stateChanged, decided := ExamineLength(view, events);
        case ReadPayload => rest, stateChanged, decided := ExaminePayload(view, events);
      }
    }

    /** Search for the header; everything in front of it is dropped, or all but a trailing first header byte. */
    method AwaitHeader(view: seq<byte>, ghost events: seq<Event>)
      returns (rest: seq<byte>, stateChanged: bool, ghost decided: seq<Event>)
      requires Running(view, events) && state == WaitForSync && view != []
      modifies this
      ensures fed == old(fed) && accumulated == old(accumulated) && Running(rest, decided) && |rest| <= |view|
      ensures arrived == old(arrived)
      ensures stateChanged ==> Measure(rest) < old(Measure(view))
      ensures !stateChanged ==> Classify(rest).Stops() && state == RestState(rest)
      ensures stateChanged <==> exists j :: 0 <= j < |view| - 1 && view[j] == 0xAA && view[j + 1] == 0x55
      ensures stateChanged ==>
        && |rest| >= 2 && rest == view[|view| - |rest|..] && rest[0] == 0xAA && rest[1] == 0x55
        && forall j :: 0 <= j < |view| - |rest| ==> !(view[j] == 0xAA && view[j + 1] == 0x55)
      ensures !stateChanged ==> rest == if view[|view| - 1] == 0xAA then [0xAA] else []
      ensures Core() == old(Core()).(state := if stateChanged then ReadType else WaitForSync)
      ensures headersFound == old(headersFound) + (if stateChanged then 1 else 0) && records == old(records)
    {
      hide Passes, Classify, Follows, Decoded, MachineAt, CountIf;
      decided := events;
      var index := 0;
      var found := false;
      while index < |view| - 1 && !found
        invariant 0 <= index <= |view| - 1
        invariant forall j :: 0 <= j < index ==> !HasHeader(view[j..])
        invariant found ==> index < |view| - 1 && HasHeader(view[index..])
        invariant forall j :: 0 <= j < index ==> !(view[j] == 0xAA && view[j + 1] == 0x55)
        invariant found ==> view[index] == 0xAA && view[index + 1] == 0x55
        decreases |view| - index, !found
      {
        if view[index] == HEADER_FIRST && view[index + 1] == HEADER_SECOND {
          found := true;
        } else {
          index := index + 1;
        }
      }
      HeaderlessPrefix(view, index);
      if found {
        FollowsSlide(fed, events, view, index);
        rest := view[index..];
        OnHeader(fed, events, view, rest);
        headersFound := headersFound + 1;
        state := ReadType;
        stateChanged := true;
      } else {
        stateChanged := false;
        if view[|view| - 1] == HEADER_FIRST {
          FollowsSlide(fed, events, view, |view| - 1);
          rest := view[|view| - 1..];
        } else {
          LastByte(view);
          FollowsSlide(fed, events, view, |view|);
          assert view[|view|..] == [];
          rest := [];
        }
        OnSlide(fed, events, view, rest);
        OnShortage(rest, WaitForSync);
      }
    }

    method ExamineType(view: seq<byte>, ghost events: seq<Event>)
      returns (rest: seq<byte>, stateChanged: bool, ghost decided: seq<Event>)
      requires Running(view, events) && state == ReadType
      modifies this
      ensures fed == old(fed) && accumulated == old(accumulated) && Running(rest, decided) && |rest| <= |view|
      ensures arrived == old(arrived)
      ensures stateChanged ==> Measure(rest) < old(Measure(view))
      ensures !stateChanged ==> Classify(rest).Stops() && state == RestState(rest)
      ensures |view| < 3 ==> !stateChanged && rest == view && Core() == old(Core())
      ensures |view| >= 3 ==> stateChanged
      ensures |view| >= 3 && view[2] == 1 ==>
        && rest == view
        && Core() == old(Core()).(state := ReadLength, kind := Telemetry, telemetryCount := old(telemetryCount) + 1)
      ensures |view| >= 3 && view[2] == 2 ==>
        && rest == view
        && Core() == old(Core()).(state := ReadLength, kind := HeartBeat, heartBeatCount := old(heartBeatCount) + 1)
      ensures |view| >= 3 && view[2] == 4 ==>
        && rest == view
        && Core() == old(Core()).(state := ReadLength, kind := Command, commandCount := old(commandCount) + 1)
      ensures |view| >= 3 && view[2] !in {1, 2, 4} ==>
        && rest == view[2..]
        && Core() == old(Core()).(state := WaitForSync, crcErrors := old(crcErrors) + 1)
      ensures headersFound == old(headersFound) && records == old(records)
    {
      hide Classify, Follows, Decoded, MachineAt, Offsets, CountIf, AllWithin;
      rest, stateChanged, decided := view, false, events;
      if |view| > TYPE_INDEX {
        if TypeOf(view[TYPE_INDEX]) != Unknown {
          OnType(fed, events, view);
        }
        if view[TYPE_INDEX] == TYPE_TELEMETRY {
          telemetryCount, kind, state := telemetryCount + 1, Telemetry, ReadLength;
        } else if view[TYPE_INDEX] == TYPE_HEART_BEAT {
          heartBeatCount, kind, state := heartBeatCount + 1, HeartBeat, ReadLength;
        } else if view[TYPE_INDEX] == TYPE_COMMAND {
          commandCount, kind, state := commandCount + 1, Command, ReadLength;
        } else {
          ghost var e := OnUnknownType(fed, events, view);
          decided := events + [e];
          crcErrors := crcErrors + 1;
          unknownTypes := unknownTypes + 1;
          rest := view[2..];
          state := WaitForSync;
        }
        stateChanged := true;
      } else {
        OnShortage(view, ReadType);
      }
    }

    method ExamineLength(view: seq<byte>, ghost events: seq<Event>)
      returns (rest: seq<byte>, stateChanged: bool, ghost decided: seq<Event>)
      requires Running(view, events) && state == ReadLength
      modifies this
      ensures fed == old(fed) && accumulated == old(accumulated) && Running(rest, decided) && |rest| <= |view|
      ensures arrived == old(arrived)
      ensures stateChanged ==> Measure(rest) < old(Measure(view))
      ensures !stateChanged ==> Classify(rest).Stops() && state == RestState(rest)
      ensures |view| < 5 ==> !stateChanged && rest == view && Core() == old(Core())
      ensures |view| >= 5 ==> stateChanged
      ensures |view| >= 5 ==>
        LengthTaken(view, view[3] as int * 256 + view[4] as int, old(Core()), rest)
      ensures headersFound == old(headersFound) && records == old(records)
    {
      hide Classify, Follows, Decoded, MachineAt, Offsets, CountIf, AllWithin, LengthField, Fits, LengthInRange;
      rest, stateChanged, decided := view, false, events;
      if |view| >= PAYLOAD_INDEX {
        LengthValue(view);
        rest, decided := TakeLength(view, LengthField(view), events);
        stateChanged := true;
      } else {
        OnShortage(view, ReadLength);
      }
    }

    /** The length n is stored and decides: the payload is next, or a structure error is counted and the header goes. */
    ghost predicate LengthTaken(view: seq<byte>, n: nat, m: Machine, rest: seq<byte>)
      requires |view| >= 2
      reads this
    {
      if 40 <= n <= 80 then
        && rest == view
        && Core() == m.(state := ReadPayload, expectedLength := n)
      else
        && rest == view[2..]
        && Core() == m.(state := WaitForSync, expectedLength := n, structureErrors := m.structureErrors + 1)
    }

    method TakeLength(view: seq<byte>, length: nat, ghost events: seq<Event>)
      returns (rest: seq<byte>, ghost decided: seq<Event>)
      requires Running(view, events) && state == ReadLength && |view| >= PAYLOAD_INDEX && length == LengthField(view)
      modifies this
      ensures fed == old(fed) && accumulated == old(accumulated) && Running(rest, decided) && |rest| <= |view|
      ensures arrived == old(arrived) && Measure(rest) < old(Measure(view))
      ensures LengthTaken(view, length, old(Core()), rest)
      ensures headersFound == old(headersFound) && records == old(records)
    {
      hide Classify, Follows, Decoded, MachineAt, Offsets, CountIf, AllWithin, LengthField;
      rest, decided := view, events;
      expectedLength := length;
      if expectedLength < MIN_PAYLOAD_LENGTH || expectedLength > MAX_PAYLOAD_LENGTH {
        ghost var e := OnBadLength(fed, events, view);
        decided := events + [e];
        structureErrors := structureErrors + 1;
        rest := view[2..];
        state := WaitForSync;
      } else {
        OnLength(fed, events, view);
        state := ReadPayload;
      }
    }

    method ExaminePayload(view: seq<byte>, ghost events: seq<Event>)
      returns (rest: seq<byte>, stateChanged: bool, ghost decided: seq<Event>)
      requires Running(view, events) && state == ReadPayload
      modifies this
      ensures fed == old(fed) && accumulated == old(accumulated) && Running(rest, decided) && |rest| <= |view|
      ensures Grown(old(arrived), arrived, |fed|)
      ensures stateChanged ==> Measure(rest) < old(Measure(view))
      ensures !stateChanged ==> Classify(rest).Stops() && state == RestState(rest)
      ensures if old(kind) == Telemetry && |view| >= 7 + old(expectedLength) then
                stateChanged && Processed(view, 7 + old(expectedLength), old(Core()), old(records), rest)
              else
                !stateChanged && rest == view && Core() == old(Core()) && records == old(records)
      ensures headersFound == old(headersFound)
    {
      hide Classify, Follows, Decoded, MachineAt, Offsets, CountIf, AllWithin;
      rest, stateChanged, decided := view, false, events;
      OnPayload(fed, events, view);
      var total := OVERHEAD + expectedLength;
      if |view| >= total {
        match kind {
          case Telemetry => rest, stateChanged, decided := ProcessTelemetryPayload(view, total, events);
          case HeartBeat => // the handler is empty
          case Command =>   // the handler is empty
          case Unknown =>
        }
      }
      if !stateChanged {
        OnShortage(view, ReadPayload);
      }
    }

    /** Compare the checksums; accept and decode the frame, or drop one byte and search again. */
    method ProcessTelemetryPayload(view: seq<byte>, total: nat, ghost events: seq<Event>)
      returns (rest: seq<byte>, stateChanged: bool, ghost decided: seq<Event>)
      requires Running(view, events) && state == ReadPayload && kind == Telemetry
      requires total == 7 + expectedLength <= |view|
      modifies this
      ensures fed == old(fed) && accumulated == old(accumulated) && Running(rest, decided)
      ensures stateChanged && state == WaitForSync && |rest| < |view|
      ensures Grown(old(arrived), arrived, |fed|)
      ensures Processed(view, total, old(Core()), old(records), rest) && headersFound == old(headersFound)
    {
      hide Follows, Packets, CountIf, Offsets, MachineAt, Decoded, RecordAt, Deserialize;
      hide Register, ByteBits, IsWord, Passes, LengthField, TypeOf, AllWithin, HasHeader;
      var calculated := CalculateCrc16(view[..total - 2]);
      var received := ((view[total - 2] as bv16) << 8) | (view[total - 1] as bv16);
      SameFrameChecksum(view, total, calculated, received);
      OnPayload(fed, events, view);
      if calculated == received {
        ghost var e := AcceptFront(fed, events, view, total);
        decided := events + [e];
        packets := packets + [view[..total]];
        var record := Deserialize(view[PAYLOAD_INDEX..]);
        FrontRecord(fed, events, view, total);
        DecodedPush(fed, old(packets), Offsets(events), arrived, records, view[..total], e.at, |fed|, record);
        records := records + [record];
        arrived := arrived + [|fed|];
        rest := view[total..];
      } else {
        ghost var e := DropFront(fed, events, view, total);
        Dropped(fed, events, view, e);
        decided := events + [e];
        crcErrors := crcErrors + 1;
        rest := view[1..];
      }
      state := WaitForSync;
      stateChanged := true;
    }
  }

  // ---- Records and cuts ----------------------------------------------------------------------------------

  lemma NothingArrived(s: seq<byte>, packets: seq<seq<byte>>, arrived: seq<nat>, records: seq<Option<TelemetryData>>)
    requires Decoded(s, packets, Offsets(Scan(s, 0).events), arrived, records)
    ensures Stream([]) == [] && (s == [] ==> arrived == Arrivals([]))
  {
    NothingAccepted();
    hide Scan, Offsets, RecordAt;
  }

  lemma DecodedLength(s: seq<byte>, packets: seq<seq<byte>>, arrived: seq<nat>, records: seq<Option<TelemetryData>>)
    requires Decoded(s, packets, Offsets(Scan(s, 0).events), arrived, records)
    ensures |arrived| == AcceptedBy(s, |s|)
  {
    hide Scan, Offsets, RecordAt, AcceptedBy, CountIf;
    AcceptedByAll(s);
  }

  lemma ArrivalsGrow(batches: seq<Batch>, batch: Batch, before: seq<nat>, after: seq<nat>)
    requires var s := Stream(batches + [batch]);
      before == Arrivals(batches) && Grown(before, after, |s|) && |after| == AcceptedBy(s, |s|)
    ensures after == Arrivals(batches + [batch])
  {
    hide AcceptedBy, Stream;
    assert (batches + [batch])[..|batches|] == batches;
  }

  lemma RecordsFollow(batches: seq<Batch>, packets: seq<seq<byte>>, arrived: seq<nat>,
                      records: seq<Option<TelemetryData>>)
    requires Decoded(Stream(batches), packets, Offsets(Scan(Stream(batches), 0).events), arrived, records)
    requires arrived == Arrivals(batches)
    ensures records == RecordsOf(batches)
  {
    hide Stream, Scan, Offsets, Arrivals, Deserialize;
  }

  // ---- Steps of the proof --------------------------------------------------------------------------------

  lemma StartRunning(s: seq<byte>, b: seq<byte>, m: Machine)
    requires m == Summary(s)
    ensures var events, view := Scan(s, 0).events, Residual(s) + b;
      && Follows(s + b, events, view)
      && Fits(m.state, view)
      && m == MachineAt(s + b, events, m.state, view)
  {
    FollowsStart(s, b);
    ScanSound(s, 0);
    RestFits(Residual(s));
    hide Classify, Scan;
    MachineExtends(s, Scan(s, 0).events, m.state, Residual(s), b);
  }

  lemma FollowsSuffix(s: seq<byte>, events: seq<Event>, view: seq<byte>)
    requires Follows(s, events, view)
    ensures |view| <= |s| && view == s[|s| - |view|..]
  {
    hide Scan;
  }

  lemma EndRunning(s: seq<byte>, events: seq<Event>, m: Machine, view: seq<byte>, buffer: seq<byte>)
    requires Follows(s, events, view) && Fits(m.state, view) && m == MachineAt(s, events, m.state, view)
    requires view == [] || (Classify(view).Stops() && m.state == RestState(view))
    requires |view| <= |buffer| <= |s| && buffer == s[|s| - |buffer|..]
    ensures Scan(s, 0).events == events
    ensures m == Summary(s) && buffer[|buffer| - |view|..] == view == Residual(s)
  {
    hide Passes, Scan, MachineAt, Summary, Follows;
    FollowsEnd(s, events, view);
    SummaryIs(s);
    FollowsSuffix(s, events, view);
    SuffixOfSuffix(s, |s| - |buffer|, |buffer| - |view|);
  }

  /** No header starts in front of the search index, so the scanner slides over all of it. */
  lemma HeaderlessPrefix(view: seq<byte>, index: nat)
    requires index < |view|
    requires forall j :: 0 <= j < index ==> !HasHeader(view[j..])
    ensures forall j :: 0 <= j < index ==> Classify(view[j..]) == NoHeader
  {}

  lemma LastByte(view: seq<byte>)
    requires view != [] && view[|view| - 1] != HEADER_FIRST
    ensures Classify(view[|view| - 1..]) == NoHeader
  {}

  /** The machine after deciding the frame at the front of the view, whose type, if known, is already counted. */
  lemma Decide(s: seq<byte>, events: seq<Event>, e: Event, st: ParserState, view: seq<byte>, rest: seq<byte>)
    requires AllWithin(events, |s|) && Within(e, |s|) && Fits(st, view)
    requires if Open(st) then e.verdict.Kind() == TypeOf(view[TYPE_INDEX]) else e.verdict.Kind() == Unknown
    ensures AllWithin(events + [e], |s|)
    ensures var m := MachineAt(s, events, st, view);
      MachineAt(s, events + [e], WaitForSync, rest) == m.(
        state := WaitForSync,
        expectedLength := match e.verdict
                          case BadLength(_, n) => n
                          case BadChecksum(n) => n
                          case Accepted(n) => n
                          case _ => LastLength(events),
        packets := m.packets + (if e.verdict.Accepted? then [s[e.at..e.at + e.verdict.Advance()]] else []),
        crcErrors := m.crcErrors + (if e.verdict.UnknownType? || e.verdict.BadChecksum? then 1 else 0),
        structureErrors := m.structureErrors + (if e.verdict.BadLength? then 1 else 0))
  {
    hide CountIf, Packets, LastKind, LastLength;
    MachineAfter(s, events, e, rest);
  }

  lemma NothingScanned()
    ensures Scan([], 0) == Outcome([], 0)
  {}

  lemma NothingFed()
    ensures Decoded([], [], Offsets(Scan([], 0).events), [], [])
    ensures Residual([]) == []
    ensures Summary([]) == Machine(WaitForSync, Unknown, 0, [], 0, 0, 0, 0, 0)
    ensures Scan([], 0).events == []
  {
    NothingScanned();
    hide Classify, Scan;
    var none: seq<byte> := [];
    assert none[0..] == [];
  }

  /** Equal checksum words are equal checksum registers. */
  lemma SameChecksum(frame: seq<byte>, calculated: bv16, received: bv16)
    requires |frame| >= 2
    requires IsWord(calculated, Register(frame[..|frame| - 2]))
    requires received == ((frame[|frame| - 2] as bv16) << 8) | (frame[|frame| - 1] as bv16)
    ensures calculated == received <==> Passes(frame)
  {
    hide Register, ByteBits;
    var n := |frame| - 2;
    WordOfBytes(frame[n], frame[n + 1]);
    WordsAndRegisters(calculated, received, Register(frame[..n]), ByteBits(frame[n]) + ByteBits(frame[n + 1]));
  }

  lemma WordsAndRegisters(w: bv16, v: bv16, r: seq<bool>, t: seq<bool>)
    requires IsWord(w, r) && IsWord(v, t)
    ensures w == v <==> r == t
  {
    hide WordBit, Mask, IsWord;
    if r == t {
      SameWord(w, v, r);
    }
    if w == v {
      SameRegister(w, r, t);
    }
  }

  lemma SameFrameChecksum(view: seq<byte>, total: nat, calculated: bv16, received: bv16)
    requires 2 <= total <= |view|
    requires IsWord(calculated, Register(view[..total - 2]))
    requires received == ((view[total - 2] as bv16) << 8) | (view[total - 1] as bv16)
    ensures calculated == received <==> Passes(view[..total])
  {
    hide Register, Passes, IsWord;
    assert view[..total][..total - 2] == view[..total - 2];
    SameChecksum(view[..total], calculated, received);
  }

  /** Finding a header only changes the state. */
  lemma OnHeader(s: seq<byte>, events: seq<Event>, view: seq<byte>, rest: seq<byte>)
    requires AllWithin(events, |s|) && HasHeader(rest)
    ensures MachineAt(s, events, ReadType, rest) == MachineAt(s, events, WaitForSync, view).(state := ReadType)
  {}

  lemma OnSlide(s: seq<byte>, events: seq<Event>, view: seq<byte>, rest: seq<byte>)
    requires AllWithin(events, |s|)
    ensures MachineAt(s, events, WaitForSync, rest) == MachineAt(s, events, WaitForSync, view)
  {}

  /** Reading a known type counts it and remembers it. */
  lemma OnType(s: seq<byte>, events: seq<Event>, view: seq<byte>)
    requires AllWithin(events, |s|) && HasHeader(view) && |view| > TYPE_INDEX && TypeOf(view[TYPE_INDEX]) != Unknown
    ensures var m, kind := MachineAt(s, events, ReadType, view), TypeOf(view[TYPE_INDEX]);
      MachineAt(s, events, ReadLength, view) == m.(
        state := ReadLength,
        kind := kind,
        telemetryCount := m.telemetryCount + (if kind == Telemetry then 1 else 0),
        heartBeatCount := m.heartBeatCount + (if kind == HeartBeat then 1 else 0),
        commandCount := m.commandCount + (if kind == Command then 1 else 0))
  {}

  /** An unknown type is counted as a checksum error, and both header bytes go. */
  lemma OnUnknownType(s: seq<byte>, events: seq<Event>, view: seq<byte>) returns (e: Event)
    requires Follows(s, events, view) && AllWithin(events, |s|)
    requires HasHeader(view) && |view| > TYPE_INDEX && TypeOf(view[TYPE_INDEX]) == Unknown
    ensures Follows(s, events + [e], view[2..]) && AllWithin(events + [e], |s|)
    ensures Offsets(events + [e]) == Offsets(events)
    ensures CountIf(events + [e], UnknownTypes()) == CountIf(events, UnknownTypes()) + 1
    ensures var m := MachineAt(s, events, ReadType, view);
      MachineAt(s, events + [e], WaitForSync, view[2..]) == m.(state := WaitForSync, crcErrors := m.crcErrors + 1)
  {
    UnknownTypeFront(s, events, view);
    hide Classify, Follows, Scan, MachineAt, Offsets;
    e := FollowsRejection(s, events, view);
    CountIfPush(events, e, UnknownTypes());
    OffsetsPush(events, e);
    Decide(s, events, e, ReadType, view, view[2..]);
  }

  lemma UnknownTypeFront(s: seq<byte>, events: seq<Event>, view: seq<byte>)
    requires AllWithin(events, |s|)
    requires HasHeader(view) && |view| > TYPE_INDEX && TypeOf(view[TYPE_INDEX]) == Unknown
    ensures Classify(view) == UnknownType && MachineAt(s, events, ReadType, view).expectedLength == LastLength(events)
  {}

  lemma LengthValue(view: seq<byte>)
    requires |view| >= 5
    ensures LengthField(view) == view[3] as int * 256 + view[4] as int
  {}

  lemma OnLength(s: seq<byte>, events: seq<Event>, view: seq<byte>)
    requires AllWithin(events, |s|) && Fits(ReadPayload, view)
    ensures MachineAt(s, events, ReadPayload, view)
      == MachineAt(s, events, ReadLength, view).(state := ReadPayload, expectedLength := LengthField(view))
  {}

  /** A length out of range is counted as a structure error, and both header bytes go. */
  lemma OnBadLength(s: seq<byte>, events: seq<Event>, view: seq<byte>) returns (e: Event)
    requires Follows(s, events, view) && AllWithin(events, |s|) && Fits(ReadLength, view)
    requires |view| >= PAYLOAD_INDEX && !LengthInRange(LengthField(view))
    ensures Follows(s, events + [e], view[2..]) && AllWithin(events + [e], |s|)
    ensures Offsets(events + [e]) == Offsets(events)
    ensures CountIf(events + [e], UnknownTypes()) == CountIf(events, UnknownTypes())
    ensures var m := MachineAt(s, events, ReadLength, view);
      MachineAt(s, events + [e], WaitForSync, view[2..]) == m.(
        state := WaitForSync, expectedLength := LengthField(view), structureErrors := m.structureErrors + 1)
  {
    hide Classify, Follows, Scan, MachineAt, Offsets, LengthField, TypeOf, HasHeader, LengthInRange, AllWithin, CountIf;
    BadLengthFront(view);
    e := FollowsRejection(s, events, view);
    CountIfPush(events, e, UnknownTypes());
    OffsetsPush(events, e);
    Decide(s, events, e, ReadLength, view, view[2..]);
  }

  lemma BadLengthFront(view: seq<byte>)
    requires Fits(ReadLength, view) && |view| >= PAYLOAD_INDEX && !LengthInRange(LengthField(view))
    ensures Classify(view) == BadLength(TypeOf(view[TYPE_INDEX]), LengthField(view))
  {}

  lemma OnPayload(s: seq<byte>, events: seq<Event>, view: seq<byte>)
    requires AllWithin(events, |s|) && Fits(ReadPayload, view)
    ensures var m := MachineAt(s, events, ReadPayload, view);
      m.kind == TypeOf(view[TYPE_INDEX]) && m.expectedLength == LengthField(view)
  {}

  /** What still waits in each state, when the bytes run out or nobody handles the frame. */
  lemma OnShortage(view: seq<byte>, st: ParserState)
    requires Fits(st, view)
    requires match st
             case WaitForSync => view == [] || view == [HEADER_FIRST]
             case ReadType => |view| <= TYPE_INDEX
             case ReadLength => |view| < PAYLOAD_INDEX
             case ReadPayload => |view| < OVERHEAD + LengthField(view) || TypeOf(view[TYPE_INDEX]) != Telemetry
    ensures Classify(view).Stops() && st == RestState(view)
  {}

  /** A complete telemetry frame at the front of the view, with its type and length already read. */
  ghost predicate FrameInFront(s: seq<byte>, events: seq<Event>, view: seq<byte>, total: nat) {
    && Follows(s, events, view)
    && AllWithin(events, |s|)
    && Fits(ReadPayload, view)
    && TypeOf(view[TYPE_INDEX]) == Telemetry
    && total == OVERHEAD + LengthField(view) <= |view|
  }

  lemma ClassifyFront(s: seq<byte>, events: seq<Event>, view: seq<byte>, total: nat)
    requires FrameInFront(s, events, view, total)
    ensures Classify(view) == if Passes(view[..total]) then Accepted(total - OVERHEAD) else BadChecksum(total - OVERHEAD)
  {
    hide Passes, Follows, AllWithin, TypeOf, LengthField;
  }

  lemma AcceptFront(s: seq<byte>, events: seq<Event>, view: seq<byte>, total: nat) returns (e: Event)
    requires FrameInFront(s, events, view, total) && Passes(view[..total])
    ensures Follows(s, events + [e], view[total..]) && AllWithin(events + [e], |s|)
    ensures e.at == |s| - |view| && Offsets(events + [e]) == Offsets(events) + [e.at]
    ensures CountIf(events + [e], UnknownTypes()) == CountIf(events, UnknownTypes())
    ensures var m := MachineAt(s, events, ReadPayload, view);
      MachineAt(s, events + [e], WaitForSync, view[total..])
        == m.(state := WaitForSync, packets := m.packets + [view[..total]])
  {
    hide Passes, Classify, Follows, Scan, MachineAt, Offsets, LengthField, TypeOf, HasHeader;
    ClassifyFront(s, events, view, total);
    FrameSlice(s, events, view, total);
    OnPayload(s, events, view);
    e := FollowsDecision(s, events, view);
    CountIfPush(events, e, UnknownTypes());
    OffsetsPush(events, e);
    Decide(s, events, e, ReadPayload, view, view[total..]);
  }

  lemma DropFront(s: seq<byte>, events: seq<Event>, view: seq<byte>, total: nat) returns (e: Event)
    requires FrameInFront(s, events, view, total) && !Passes(view[..total])
    ensures Follows(s, events + [e], view[1..]) && AllWithin(events + [e], |s|)
    ensures Within(e, |s|) && e.verdict == BadChecksum(total - OVERHEAD)
  {
    hide Passes, Classify, Follows, Scan, LengthField, TypeOf, HasHeader;
    ClassifyFront(s, events, view, total);
    e := FollowsRejection(s, events, view);
  }

  lemma Dropped(s: seq<byte>, events: seq<Event>, view: seq<byte>, e: Event)
    requires AllWithin(events, |s|) && Within(e, |s|) && Fits(ReadPayload, view)
    requires TypeOf(view[TYPE_INDEX]) == Telemetry && e.verdict == BadChecksum(LengthField(view))
    ensures AllWithin(events + [e], |s|) && Offsets(events + [e]) == Offsets(events)
    ensures CountIf(events + [e], UnknownTypes()) == CountIf(events, UnknownTypes())
    ensures var m := MachineAt(s, events, ReadPayload, view);
      MachineAt(s, events + [e], WaitForSync, view[1..])
        == m.(state := WaitForSync, crcErrors := m.crcErrors + 1)
  {
    hide MachineAt, Offsets, LengthField, TypeOf, HasHeader;
    OnPayload(s, events, view);
    CountIfPush(events, e, UnknownTypes());
    OffsetsPush(events, e);
    Decide(s, events, e, ReadPayload, view, view[1..]);
  }

  lemma FrameSlice(s: seq<byte>, events: seq<Event>, view: seq<byte>, total: nat)
    requires Follows(s, events, view) && total <= |view|
    ensures s[|s| - |view|..|s| - |view| + total] == view[..total]
  {}

  /** What decoding the frame at the front of the view yields. */
  lemma FrontRecord(s: seq<byte>, events: seq<Event>, view: seq<byte>, total: nat)
    requires Follows(s, events, view) && PAYLOAD_INDEX < total <= |view|
    ensures RecordAt(s, view[..total], |s| - |view|, |s|, Deserialize(view[PAYLOAD_INDEX..]))
  {
    hide Scan, Deserialize;
    FrameSlice(s, events, view, total);
    SuffixOfSuffix(s, |s| - |view|, PAYLOAD_INDEX);
    assert s[|s| - |view| + PAYLOAD_INDEX..|s|] == view[PAYLOAD_INDEX..];
  }
}
