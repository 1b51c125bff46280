/**
  The reference scanner: what the streaming parser is meant to find in a byte stream, said without any state machine.
  From an offset it looks at the bytes that follow, accepts a complete checksum-valid telemetry frame and jumps behind
  it, and otherwise slides by one byte. It stops where the bytes run out, or at a frame nobody handles.
 */
module Scanner {
  import opened Crc16
  import opened Sequences
  import opened TelemetryPacket

  datatype MessageType = Unknown | Telemetry | HeartBeat | Command

  function TypeOf(b: byte): MessageType {
    if b == TYPE_TELEMETRY then Telemetry
    else if b == TYPE_HEART_BEAT then HeartBeat
    else if b == TYPE_COMMAND then Command
    else Unknown
  }

  function LengthField(w: seq<byte>): (n: nat)
    requires |w| >= PAYLOAD_INDEX
  {
    w[LENGTH_INDEX] as int * 256 + w[LENGTH_INDEX + 1] as int
  }

  predicate LengthInRange(n: nat) {
    MIN_PAYLOAD_LENGTH <= n <= MAX_PAYLOAD_LENGTH
  }

  predicate HasHeader(w: seq<byte>) {
    |w| >= 2 && w[0] == HEADER_FIRST && w[1] == HEADER_SECOND
  }

  /** What stands at an offset. */
  datatype Verdict =
    | Exhausted                                  // no byte left
    | Incomplete                                 // a prefix of a header or of a frame
    | NoHeader
    | UnknownType
    | BadLength(kind: MessageType, length: nat)
    | BadChecksum(length: nat)
    | Accepted(length: nat)
    | Unhandled(kind: MessageType, length: nat)  // a complete heart-beat or command frame
  {
    /** The scanner cannot move on. */
    predicate Stops() {
      Exhausted? || Incomplete? || Unhandled?
    }

    /** A header whose frame was accepted or rejected. */
    predicate Decided() {
      UnknownType? || BadLength? || BadChecksum? || Accepted?
    }

    /** How far the scanner moves. */
    function Advance(): (n: nat)
      ensures n > 0
    {
      if Accepted? then length + OVERHEAD else 1
    }

    function Kind(): MessageType {
      match this
      case BadLength(kind, _) => kind
      case BadChecksum(_) => Telemetry
      case Accepted(_) => Telemetry
      case _ => Unknown
    }
  }

  function Classify(w: seq<byte>): (v: Verdict)
    ensures v.Accepted? ==> LengthInRange(v.length) && v.length + OVERHEAD <= |w|
    ensures v.Exhausted? <==> w == []
    ensures v.Decided() ==> HasHeader(w)
    ensures v.NoHeader? ==> !HasHeader(w)
  {
    if w == [] then Exhausted
    else if w[0] != HEADER_FIRST then NoHeader
    else if |w| == 1 then Incomplete
    else if w[1] != HEADER_SECOND then NoHeader
    else if |w| <= TYPE_INDEX then Incomplete
    else if TypeOf(w[TYPE_INDEX]) == Unknown then UnknownType
    else if |w| < PAYLOAD_INDEX then Incomplete
    else
      var kind, length := TypeOf(w[TYPE_INDEX]), LengthField(w);
      if !LengthInRange(length) then BadLength(kind, length)
      else if |w| < length + OVERHEAD then Incomplete
      else if kind != Telemetry then Unhandled(kind, length)
      else if Passes(w[..length + OVERHEAD]) then Accepted(length)
      else BadChecksum(length)
  }

  datatype Event = Event(at: nat, verdict: Verdict)

  /** The event's frame, or its single rejected byte, lies within the first n bytes. */
  predicate Within(e: Event, n: nat) {
    e.at + e.verdict.Advance() <= n
  }

  predicate AllWithin(events: seq<Event>, n: nat) {
    forall k {:trigger events[k]} :: 0 <= k < |events| ==> Within(events[k], n)
  }

  datatype Outcome = Outcome(events: seq<Event>, stop: nat)

  function Scan(s: seq<byte>, i: nat): (o: Outcome)
    requires i <= |s|
    ensures i <= o.stop <= |s|
    ensures Classify(s[o.stop..]).Stops()
    decreases |s| - i
  {
    var v := Classify(s[i..]);
    if v.Stops() then Outcome([], i)
    else
      var rest := Scan(s, i + v.Advance());
      if v.Decided() then Outcome([Event(i, v)] + rest.events, rest.stop) else rest
  }

  /** One step of the scan: skip, or decide and go on behind the decision. */
  lemma ScanStep(s: seq<byte>, i: nat)
    requires i <= |s|
    ensures var v := Classify(s[i..]);
      && (v.Stops() ==> Scan(s, i) == Outcome([], i))
      && (!v.Stops() ==>
            && i + v.Advance() <= |s|
            && var rest := Scan(s, i + v.Advance());
               Scan(s, i) == Outcome((if v.Decided() then [Event(i, v)] else []) + rest.events, rest.stop))
  {
    hide Passes;
    assert [] + Scan(s, i).events == Scan(s, i).events;
  }

  // ---- More bytes never change what was decided ----------------------------------------------------------

  lemma ClassifyExtends(w: seq<byte>, b: seq<byte>)
    requires !Classify(w).Exhausted? && !Classify(w).Incomplete?
    ensures Classify(w + b) == Classify(w)
  {
    var v := Classify(w);
    if |w| >= PAYLOAD_INDEX {
      assert LengthField(w + b) == LengthField(w);
    }
    if v.Accepted? || v.BadChecksum? {
      PrefixAppend(w, b, v.length + OVERHEAD);
    }
    hide Passes;
  }

  /** Resuming: scanning a longer stream is scanning the shorter one and going on from where it stopped. */
  lemma {:induction false} ScanExtends(s: seq<byte>, b: seq<byte>, i: nat)
    requires i <= |s|
    ensures var o := Scan(s, i); var more := Scan(s + b, o.stop);
      Scan(s + b, i) == Outcome(o.events + more.events, more.stop)
    decreases |s| - i
  {
    hide Classify, Scan;
    var v := Classify(s[i..]);
    ScanStep(s, i);
    if v.Stops() {
      assert [] + Scan(s + b, i).events == Scan(s + b, i).events;
    } else {
      SuffixAppend(s, b, i);
      ClassifyExtends(s[i..], b);
      ScanStep(s + b, i);
      ScanExtends(s, b, i + v.Advance());
      var o := Scan(s, i + v.Advance());
      Associative(if v.Decided() then [Event(i, v)] else [], o.events, Scan(s + b, o.stop).events);
    }
  }

  // ---- What the decisions are ----------------------------------------------------------------------------

  /** Every event is the verdict at its offset, events are in order, and nothing overlaps an accepted frame. */
  ghost predicate Sound(s: seq<byte>, from: nat, events: seq<Event>, stop: nat) {
    && (forall k {:trigger events[k]} :: 0 <= k < |events| ==> from <= events[k].at)
    && InOrder(s, events, stop)
  }

  ghost predicate InOrder(s: seq<byte>, events: seq<Event>, stop: nat) {
    && (forall k {:trigger events[k]} :: 0 <= k < |events| ==>
          && events[k].at < stop <= |s|
          && events[k].verdict == Classify(s[events[k].at..])
          && events[k].verdict.Decided()
          && Within(events[k], stop))
    && (forall k, l :: 0 <= k < l < |events| ==> events[k].at + events[k].verdict.Advance() <= events[l].at)
  }

  lemma {:induction false} ScanSound(s: seq<byte>, i: nat)
    requires i <= |s|
    ensures Sound(s, i, Scan(s, i).events, Scan(s, i).stop)
    decreases |s| - i
  {
    hide Classify, Sound;
    var v := Classify(s[i..]);
    if v.Stops() {
      SoundNone(s, i);
    } else {
      ScanSound(s, i + v.Advance());
      SoundFirst(s, i, v, Scan(s, i + v.Advance()).events, Scan(s, i + v.Advance()).stop);
    }
  }

  lemma SoundNone(s: seq<byte>, i: nat)
    ensures Sound(s, i, [], i)
  {}

  lemma SoundFirst(s: seq<byte>, i: nat, v: Verdict, events: seq<Event>, stop: nat)
    requires i + v.Advance() <= stop <= |s| && v == Classify(s[i..])
    requires Sound(s, i + v.Advance(), events, stop)
    ensures Sound(s, i, if v.Decided() then [Event(i, v)] + events else events, stop)
  {
    hide Sound, Classify;
    SoundFrom(s, i, i + v.Advance(), events, stop);
    if v.Decided() {
      SoundBehind(s, i, v, events, stop);
    }
  }

  lemma SoundFrom(s: seq<byte>, i: nat, from: nat, events: seq<Event>, stop: nat)
    requires i <= from && Sound(s, from, events, stop)
    ensures Sound(s, i, events, stop)
  {
    hide InOrder;
  }

  lemma SoundBehind(s: seq<byte>, i: nat, v: Verdict, events: seq<Event>, stop: nat)
    requires i + v.Advance() <= stop <= |s| && v == Classify(s[i..]) && v.Decided()
    requires Sound(s, i + v.Advance(), events, stop)
    ensures Sound(s, i, [Event(i, v)] + events, stop)
  {
    hide Classify, Verdict.Decided, Verdict.Advance;
    var all := [Event(i, v)] + events;
    assert forall k {:trigger all[k]} :: 0 < k < |all| ==> all[k] == events[k - 1];
  }

  lemma SoundWithin(s: seq<byte>, from: nat, events: seq<Event>, stop: nat)
    requires Sound(s, from, events, stop)
    ensures AllWithin(events, stop)
  {}

  /** Offset j lies strictly inside the frame that event e accepted. */
  predicate Covers(e: Event, j: nat) {
    e.verdict.Accepted? && e.at < j < e.at + e.verdict.Advance()
  }

  /** Sliding loses nothing: a header in front of the stop is decided there, unless it lies in an accepted frame. */
  lemma {:induction false} ScanComplete(s: seq<byte>, i: nat, j: nat) returns (k: nat)
    requires i <= |s| && i <= j < Scan(s, i).stop
    requires HasHeader(s[j..])
    ensures k < |Scan(s, i).events|
    ensures var e := Scan(s, i).events[k]; e == Event(j, Classify(s[j..])) || Covers(e, j)
    decreases |s| - i
  {
    hide Classify;
    var v := Classify(s[i..]);
    if v.Decided() && (i == j || (v.Accepted? && j < i + v.Advance())) {
      k := 0;
    } else {
      k := ScanComplete(s, i + v.Advance(), j);
      k := if v.Decided() then k + 1 else k;
    }
  }

  /** No byte of a header pair is itself the start of a header, so sliding by two after a header skips nothing. */
  lemma HeaderSlide(s: seq<byte>, i: nat)
    requires i + 2 <= |s| && HasHeader(s[i..])
    ensures Scan(s, i + 1) == Scan(s, i + 2)
  {}

  lemma {:induction false} SlideOver(s: seq<byte>, i: nat, k: nat)
    requires i + k <= |s|
    requires forall j :: i <= j < i + k ==> Classify(s[j..]) == NoHeader
    ensures Scan(s, i) == Scan(s, i + k)
    decreases k
  {
    hide Classify;
    if k > 0 {
      assert Classify(s[i..]) == NoHeader;
      SlideOver(s, i + 1, k - 1);
    }
  }

  // ---- The stop ------------------------------------------------------------------------------------------

  /** What is kept back: an unfinished prefix of at most 86 bytes, or everything from an unhandled frame on. */
  lemma ResidualBounded(s: seq<byte>)
    ensures var r := s[Scan(s, 0).stop..]; |r| <= 86 || Classify(r).Unhandled?
  {}

  /** An unhandled frame absorbs: whatever follows, no more events and no more progress. */
  lemma UnhandledAbsorbs(s: seq<byte>, b: seq<byte>)
    requires Classify(s[Scan(s, 0).stop..]).Unhandled?
    ensures Scan(s + b, 0) == Scan(s, 0)
  {
    hide Classify;
    var o := Scan(s, 0);
    ScanExtends(s, b, 0);
    SuffixAppend(s, b, o.stop);
    ClassifyExtends(s[o.stop..], b);
    assert Scan(s + b, o.stop) == Outcome([], o.stop);
    assert o.events + [] == o.events;
  }

  // ---- Counting ------------------------------------------------------------------------------------------

  function CountIf(events: seq<Event>, p: Verdict -> bool): nat {
    if events == [] then 0
    else CountIf(events[..|events| - 1], p) + (if p(events[|events| - 1].verdict) then 1 else 0)
  }

  lemma CountIfPush(events: seq<Event>, e: Event, p: Verdict -> bool)
    ensures CountIf(events + [e], p) == CountIf(events, p) + (if p(e.verdict) then 1 else 0)
  {}

  function Accepts(): Verdict -> bool { (v: Verdict) => v.Accepted? }
  function UnknownTypes(): Verdict -> bool { (v: Verdict) => v.UnknownType? }
  function CrcErrors(): Verdict -> bool { (v: Verdict) => v.UnknownType? || v.BadChecksum? }
  function StructureErrors(): Verdict -> bool { (v: Verdict) => v.BadLength? }
  function OfKind(kind: MessageType): Verdict -> bool { (v: Verdict) => v.Kind() == kind }

  /** Every decision is counted exactly once, and its type exactly when it has one. */
  lemma {:induction false} EveryEventCounted(events: seq<Event>)
    requires forall k :: 0 <= k < |events| ==> events[k].verdict.Decided()
    requires forall k :: 0 <= k < |events| && events[k].verdict.BadLength? ==> events[k].verdict.kind != Unknown
    ensures |events| == CountIf(events, Accepts()) + CountIf(events, CrcErrors()) + CountIf(events, StructureErrors())
    ensures CountIf(events, OfKind(Telemetry)) + CountIf(events, OfKind(HeartBeat)) + CountIf(events, OfKind(Command))
      == |events| - CountIf(events, UnknownTypes())
  {
    if events != [] {
      EveryEventCounted(events[..|events| - 1]);
    }
  }

  /** The accepted frames, in order. */
  function Packets(s: seq<byte>, events: seq<Event>): (r: seq<seq<byte>>)
    requires AllWithin(events, |s|)
    ensures |r| == CountIf(events, Accepts())
  {
    if events == [] then []
    else
      var e := events[|events| - 1];
      Packets(s, events[..|events| - 1]) + (if e.verdict.Accepted? then [s[e.at..e.at + e.verdict.Advance()]] else [])
  }

  lemma PacketsLast(s: seq<byte>, events: seq<Event>)
    requires AllWithin(events, |s|) && events != []
    ensures var e := events[|events| - 1]; var front := Packets(s, events[..|events| - 1]);
      Packets(s, events) == if e.verdict.Accepted? then front + [s[e.at..e.at + e.verdict.Advance()]] else front
  {}

  lemma {:induction false} PacketsExtend(s: seq<byte>, b: seq<byte>, events: seq<Event>)
    requires AllWithin(events, |s|)
    ensures Packets(s + b, events) == Packets(s, events)
  {
    hide Classify;
    if events != [] {
      var e := events[|events| - 1];
      PacketsExtend(s, b, events[..|events| - 1]);
      assert (s + b)[e.at..e.at + e.verdict.Advance()] == s[e.at..e.at + e.verdict.Advance()];
    }
  }

  lemma PacketsPush(s: seq<byte>, events: seq<Event>, e: Event)
    requires AllWithin(events, |s|)
    requires Within(e, |s|)
    ensures Packets(s, events + [e])
      == Packets(s, events) + (if e.verdict.Accepted? then [s[e.at..e.at + e.verdict.Advance()]] else [])
  {
    hide Classify, Packets;
    var longer := events + [e];
    assert longer[..|events|] == events && longer[|longer| - 1] == e;
    PacketsLast(s, longer);
  }

  /** Where the accepted frames begin. */
  function Offsets(events: seq<Event>): (r: seq<nat>)
    ensures |r| == CountIf(events, Accepts())
  {
    if events == [] then []
    else
      var e := events[|events| - 1];
      Offsets(events[..|events| - 1]) + (if e.verdict.Accepted? then [e.at] else [])
  }

  lemma OffsetsPush(events: seq<Event>, e: Event)
    ensures Offsets(events + [e]) == Offsets(events) + (if e.verdict.Accepted? then [e.at] else [])
  {}

  lemma {:induction false} OffsetsAppend(a: seq<Event>, b: seq<Event>)
    ensures Offsets(a + b) == Offsets(a) + Offsets(b)
    decreases |b|
  {
    if b == [] {
      assert a + b == a;
    } else {
      var front, last := b[..|b| - 1], b[|b| - 1];
      assert a + b == (a + front) + [last];
      OffsetsAppend(a, front);
      OffsetsPush(a + front, last);
      OffsetsPush(front, last);
      assert b == front + [last];
      Associative(Offsets(a), Offsets(front), if last.verdict.Accepted? then [last.at] else []);
    }
  }

  /** The accepting event behind an offset of the list. */
  lemma {:induction false} OriginOf(events: seq<Event>, k: nat) returns (m: nat)
    requires k < |Offsets(events)|
    ensures m < |events| && events[m].verdict.Accepted? && |Offsets(events[..m])| == k
    decreases |events|
  {
    var last := |events| - 1;
    if k < |Offsets(events[..last])| {
      m := OriginOf(events[..last], k);
      assert events[..last][..m] == events[..m];
    } else {
      m := last;
    }
  }

  /** The offset that an accepting event puts into the list. */
  lemma OffsetOf(events: seq<Event>, m: nat)
    requires m < |events| && events[m].verdict.Accepted?
    ensures var k := |Offsets(events[..m])|; k < |Offsets(events)| && Offsets(events)[k] == events[m].at
  {
    hide Offsets;
    OffsetsPush(events[..m], events[m]);
    OffsetsAppend(events[..m] + [events[m]], events[m + 1..]);
    assert events == events[..m] + [events[m]] + events[m + 1..];
  }

  // ---- When a decision is made ---------------------------------------------------------------------------

  /** How many bytes from its offset on a decision depends on. */
  function Needs(v: Verdict): nat {
    match v
    case UnknownType => TYPE_INDEX + 1
    case BadLength(_, _) => PAYLOAD_INDEX
    case BadChecksum(n) => n + OVERHEAD
    case Accepted(n) => n + OVERHEAD
    case _ => 0
  }

  /** The number of bytes of the stream that all of these decisions together depend on. */
  function SettledAt(events: seq<Event>): nat {
    if events == [] then 0
    else
      var front, e := SettledAt(events[..|events| - 1]), events[|events| - 1];
      if e.at + Needs(e.verdict) > front then e.at + Needs(e.verdict) else front
  }

  lemma {:induction false} SettledBound(events: seq<Event>, n: nat)
    ensures SettledAt(events) <= n <==> forall k :: 0 <= k < |events| ==> events[k].at + Needs(events[k].verdict) <= n
  {
    if events != [] {
      SettledBound(events[..|events| - 1], n);
    }
  }

  lemma NeedsFit(w: seq<byte>)
    requires Classify(w).Decided()
    ensures 3 <= Needs(Classify(w)) <= |w|
  {
    hide Passes;
  }

  /** A decision that had to wait depends on a byte that was not there. */
  lemma NeedsMore(w: seq<byte>, b: seq<byte>)
    requires Classify(w).Incomplete? && Classify(w + b).Decided()
    ensures Needs(Classify(w + b)) > |w|
  {
    hide Passes;
    if |w| >= PAYLOAD_INDEX {
      assert LengthField(w + b) == LengthField(w);
    }
  }

  /** Only a single first header byte waits and then turns out to start no header. */
  lemma WaitedInVain(w: seq<byte>, b: seq<byte>)
    requires Classify(w).Incomplete? && Classify(w + b).NoHeader?
    ensures |w| == 1
  {
    hide Passes;
  }

  /** Where the first decision from an offset on can lie. */
  lemma FirstEvent(s: seq<byte>, i: nat)
    requires i <= |s| && Scan(s, i).events != []
    ensures var e, v := Scan(s, i).events[0], Classify(s[i..]);
      && i <= e.at <= |s| && e.verdict == Classify(s[e.at..]) && e.verdict.Decided()
      && !v.Stops() && (v.Decided() ==> e == Event(i, v)) && (v.NoHeader? ==> e.at > i)
  {
    hide Classify, Scan;
    ScanStep(s, i);
    ScanSound(s, i);
    if Classify(s[i..]).NoHeader? {
      ScanSound(s, i + 1);
    }
  }

  /** The first decision that the first n bytes do not yet bring depends on a byte behind them. */
  lemma NextSettlesLater(s: seq<byte>, n: nat)
    requires n <= |s|
    ensures var stop := Scan(s[..n], 0).stop;
      Scan(s, stop).events != [] ==> var e := Scan(s, stop).events[0]; e.at + Needs(e.verdict) > n
  {
    hide Classify, Scan, Needs, HasHeader;
    var stop := Scan(s[..n], 0).stop;
    var w := s[..n][stop..];
    assert |w| == n - stop;
    if Scan(s, stop).events != [] {
      FirstEvent(s, stop);
      var e := Scan(s, stop).events[0];
      NeedsFit(s[e.at..]);
      assert s == s[..n] + s[n..];
      SuffixAppend(s[..n], s[n..], stop);
      if Classify(w).Unhandled? {
        ClassifyExtends(w, s[n..]);
        assert false;
      } else if Classify(w).Incomplete? {
        if Classify(s[stop..]).Decided() {
          NeedsMore(w, s[n..]);
        } else {
          WaitedInVain(w, s[n..]);
        }
      }
    }
  }

  /**
    Every decision is made as early as it can be: the first n bytes bring the first m decisions exactly if no byte
    that these depend on lies behind.
   */
  lemma PrefixDecides(s: seq<byte>, n: nat, m: nat)
    requires n <= |s| && m <= |Scan(s, 0).events|
    ensures m <= |Scan(s[..n], 0).events| <==> SettledAt(Scan(s, 0).events[..m]) <= n
    ensures Scan(s[..n], 0).events <= Scan(s, 0).events
  {
    hide Classify, Scan, Needs, SettledAt;
    var events, early := Scan(s, 0).events, Scan(s[..n], 0);
    assert s == s[..n] + s[n..];
    ScanExtends(s[..n], s[n..], 0);
    assert events == early.events + Scan(s, early.stop).events;
    SettledBound(events[..m], n);
    if m <= |early.events| {
      assert events[..m] == early.events[..m];
      EarlySettled(s, n);
    } else {
      NextSettlesLater(s, n);
      assert events[..m][|early.events|] == Scan(s, early.stop).events[0];
    }
  }

  lemma EarlySettled(s: seq<byte>, n: nat)
    requires n <= |s|
    ensures forall e <- Scan(s[..n], 0).events :: e.at + Needs(e.verdict) <= n
  {
    hide Classify, Scan, Needs;
    ScanSound(s[..n], 0);
    forall e <- Scan(s[..n], 0).events ensures e.at + Needs(e.verdict) <= n {
      NeedsFit(s[..n][e.at..]);
    }
  }
}
