/**
  What the parser decodes from a stream, as a function of how the stream was cut into batches of chunks, and exactly
  for which streams the cuts do not matter. The payload reader sees everything up to the last byte of the batch that
  completes a frame, so a frame whose id length does not fit is read further or less far depending on the cuts.
 */
module Cuts {
  import opened Crc16
  import opened Sequences
  import opened TelemetryPacket
  import opened Scanner
  import opened Wrappers

  type Batch = seq<seq<byte>>

  function Stream(batches: seq<Batch>): seq<byte> {
    Flatten(Flatten(batches))
  }

  lemma StreamPush(batches: seq<Batch>, batch: Batch)
    ensures Stream(batches + [batch]) == Stream(batches) + Flatten(batch)
  {
    FlattenPush(batches, batch);
    FlattenAppend(Flatten(batches), batch);
  }

  /** Everything from offset i up to the first n bytes of the stream. */
  function View(s: seq<byte>, i: nat, n: nat): seq<byte> {
    if i <= n <= |s| then s[i..n] else []
  }

  /** The accepted frames among the first n bytes. */
  function AcceptedBy(s: seq<byte>, n: nat): nat
    requires n <= |s|
  {
    |Offsets(Scan(s[..n], 0).events)|
  }

  lemma AcceptedByAll(s: seq<byte>)
    ensures AcceptedBy(s, |s|) == |Offsets(Scan(s, 0).events)|
  {
    hide Scan, Offsets, CountIf;
    assert s[..|s|] == s;
  }

  function Repeat(n: nat, times: int): (r: seq<nat>)
    ensures |r| == (if times > 0 then times else 0) && forall k :: 0 <= k < |r| ==> r[k] == n
  {
    seq(if times > 0 then times else 0, _ => n)
  }

  /** For every accepted frame, how many bytes had arrived with the batch that made it accepted. */
  function Arrivals(batches: seq<Batch>): seq<nat>
    decreases |batches|
  {
    if batches == [] then []
    else
      var s, before := Stream(batches), Arrivals(batches[..|batches| - 1]);
      before + Repeat(|s|, AcceptedBy(s, |s|) - |before|)
  }

  /** The decoded records. */
  function RecordsOf(batches: seq<Batch>): (r: seq<Option<TelemetryData>>)
    ensures |r| == |Arrivals(batches)|
  {
    var s, arrived := Stream(batches), Arrivals(batches);
    var offsets := Offsets(Scan(s, 0).events);
    seq(|arrived|, k requires 0 <= k < |arrived| =>
      if k < |offsets| then Deserialize(View(s, offsets[k] + PAYLOAD_INDEX, arrived[k])) else None)
  }

  // ---- Arrivals ------------------------------------------------------------------------------------------

  /** More bytes bring more accepted frames, and none is lost. */
  lemma AcceptedGrows(s: seq<byte>, n: nat)
    requires n <= |s|
    ensures Offsets(Scan(s[..n], 0).events) <= Offsets(Scan(s, 0).events)
    ensures s[..|s|] == s && AcceptedBy(s, n) <= AcceptedBy(s, |s|)
  {
    hide Scan, Offsets;
    PrefixDecides(s, n, 0);
    var early, events := Scan(s[..n], 0).events, Scan(s, 0).events;
    OffsetsAppend(early, events[|early|..]);
    assert events == early + events[|early|..];
    assert s[..|s|] == s;
  }

  lemma {:induction false} ArrivalsAre(batches: seq<Batch>)
    ensures var s, arrived := Stream(batches), Arrivals(batches);
      && |arrived| == |Offsets(Scan(s, 0).events)|
      && forall k :: 0 <= k < |arrived| ==> arrived[k] <= |s| && k < AcceptedBy(s, arrived[k])
    decreases |batches|
  {
    hide Scan, Offsets;
    if batches == [] {
      NothingAccepted();
    } else {
      var front := batches[..|batches| - 1];
      assert batches == front + [batches[|batches| - 1]];
      StreamPush(front, batches[|batches| - 1]);
      ArrivalsAre(front);
      var s, t := Stream(batches), Stream(front);
      hide Stream;
      Cut(t, Flatten(batches[|batches| - 1]));
      AcceptedGrows(s, |t|);
      forall k | 0 <= k < |Arrivals(front)|
        ensures AcceptedBy(s, Arrivals(front)[k]) == AcceptedBy(t, Arrivals(front)[k])
      {
        PrefixAppend(t, Flatten(batches[|batches| - 1]), Arrivals(front)[k]);
      }
    }
  }

  lemma NothingAccepted()
    ensures Stream([]) == [] && Offsets(Scan([], 0).events) == []
  {
    var none: seq<byte> := [];
    assert none[0..] == [];
  }

  /** A frame is accepted as soon as everything that it and the decisions in front of it depend on has arrived. */
  lemma AcceptedWhenSettled(s: seq<byte>, n: nat, m: nat)
    requires n <= |s| && m < |Scan(s, 0).events| && Scan(s, 0).events[m].verdict.Accepted?
    ensures var events := Scan(s, 0).events;
      |Offsets(events[..m])| < AcceptedBy(s, n) <==> SettledAt(events[..m + 1]) <= n
  {
    hide Scan, Offsets, SettledAt;
    var events, early := Scan(s, 0).events, Scan(s[..n], 0).events;
    PrefixDecides(s, n, m + 1);
    if m < |early| {
      assert early[..m] == events[..m];
      OffsetOf(early, m);
    } else {
      OffsetsAppend(early, events[|early|..m]);
      assert events[..m] == early + events[|early|..m];
    }
  }

  // ---- Views ---------------------------------------------------------------------------------------------

  lemma ViewGrows(s: seq<byte>, i: nat, a: nat, b: nat)
    requires i <= a <= b <= |s| && Readable(View(s, i, a))
    ensures Deserialize(View(s, i, b)) == Deserialize(View(s, i, a))
  {
    hide Readable, Deserialize;
    assert View(s, i, b) == View(s, i, a) + s[a..b];
    DeserializeExtends(View(s, i, a), s[a..b]);
  }

  /** What is read does not change any more from byte count e on. */
  lemma SettledView(s: seq<byte>, i: nat, e: nat, n: nat)
    requires i <= e <= n <= |s|
    requires Readable(View(s, i, e)) <==> Readable(View(s, i, |s|))
    ensures Deserialize(View(s, i, n)) == Deserialize(View(s, i, |s|))
  {
    if Readable(View(s, i, e)) {
      ViewGrows(s, i, e, n);
      ViewGrows(s, i, e, |s|);
    } else if Readable(View(s, i, n)) {
      ViewGrows(s, i, n, |s|);
    }
    hide View;
  }

  // ---- When the cuts do not matter -----------------------------------------------------------------------

  /** The m-th decision, which accepts a frame, is decoded in the same way at the earliest moment and at the end. */
  predicate Settles(s: seq<byte>, events: seq<Event>, m: nat)
    requires m < |events|
  {
    var i := events[m].at + PAYLOAD_INDEX;
    Readable(View(s, i, SettledAt(events[..m + 1]))) <==> Readable(View(s, i, |s|))
  }

  lemma SettledRange(s: seq<byte>, m: nat)
    requires m < |Scan(s, 0).events| && Scan(s, 0).events[m].verdict.Accepted?
    ensures var events := Scan(s, 0).events;
      events[m].at + events[m].verdict.Advance() <= SettledAt(events[..m + 1]) <= |s|
  {
    hide Scan, Needs, SettledAt;
    var events := Scan(s, 0).events;
    assert s[..|s|] == s;
    EarlySettled(s, |s|);
    SettledBound(events[..m + 1], |s|);
    SettledBound(events[..m + 1], SettledAt(events[..m + 1]));
    assert events[..m + 1][m] == events[m];
    AcceptedNeeds(events[m].verdict);
  }

  lemma AcceptedNeeds(v: Verdict)
    requires v.Accepted?
    ensures Needs(v) == v.Advance() > PAYLOAD_INDEX
  {}

  lemma SettledRecord(batches: seq<Batch>, k: nat)
    requires var s := Stream(batches); var events := Scan(s, 0).events;
      forall m: nat :: m < |events| && events[m].verdict.Accepted? ==> Settles(s, events, m)
    requires k < |Arrivals(batches)|
    ensures var s := Stream(batches); var offsets := Offsets(Scan(s, 0).events);
      k < |offsets| && RecordsOf(batches)[k] == Deserialize(View(s, offsets[k] + PAYLOAD_INDEX, |s|))
  {
    hide Stream, Scan, Offsets, SettledAt, View, Arrivals, Readable, Deserialize;
    var s, n := Stream(batches), Arrivals(batches)[k];
    var events := Scan(s, 0).events;
    ArrivalsAre(batches);
    var m := OriginOf(events, k);
    OffsetOf(events, m);
    AcceptedWhenSettled(s, n, m);
    SettledRange(s, m);
    AcceptedNeeds(events[m].verdict);
    assert Settles(s, events, m);
    SettledView(s, events[m].at + PAYLOAD_INDEX, SettledAt(events[..m + 1]), n);
  }

  lemma SameForAllCuts(b: seq<Batch>, c: seq<Batch>)
    requires Stream(b) == Stream(c)
    requires var s := Stream(b); var events := Scan(s, 0).events;
      forall m: nat :: m < |events| && events[m].verdict.Accepted? ==> Settles(s, events, m)
    ensures RecordsOf(b) == RecordsOf(c)
  {
    hide Stream, Scan, Offsets, View, Arrivals, Deserialize, Settles, RecordsOf;
    ArrivalsAre(b);
    ArrivalsAre(c);
    forall k | 0 <= k < |Arrivals(b)| ensures RecordsOf(b)[k] == RecordsOf(c)[k] {
      SettledRecord(b, k);
      SettledRecord(c, k);
    }
  }

  /** The whole stream in one batch, and in two batches cut at e. */
  function Whole(s: seq<byte>): seq<Batch> {
    [[s]]
  }

  function CutAt(s: seq<byte>, e: nat): seq<Batch>
    requires e <= |s|
  {
    [[s[..e]], [s[e..]]]
  }

  lemma WholeArrives(s: seq<byte>)
    ensures Stream(Whole(s)) == s && Arrivals(Whole(s)) == Repeat(|s|, AcceptedBy(s, |s|))
  {
    hide Scan, Offsets, AcceptedBy;
    FlattenOne([s]);
    FlattenOne(s);
    assert Whole(s)[..0] == [];
  }

  lemma CutArrives(s: seq<byte>, e: nat, k: nat)
    requires e <= |s| && k < AcceptedBy(s, e)
    ensures Stream(CutAt(s, e)) == s && k < |Arrivals(CutAt(s, e))| && Arrivals(CutAt(s, e))[k] == e
  {
    hide Scan, Offsets, Stream, Arrivals, Flatten;
    WholeArrives(s[..e]);
    StreamPush(Whole(s[..e]), [s[e..]]);
    FlattenOne(s[e..]);
    assert Whole(s[..e]) + [[s[e..]]] == CutAt(s, e);
    assert s[..e] + s[e..] == s;
    assert s[..e][..e] == s[..e];
    ArrivalsPush(Whole(s[..e]), [s[e..]]);
  }

  lemma ArrivalsPush(batches: seq<Batch>, batch: Batch)
    ensures Arrivals(batches) <= Arrivals(batches + [batch])
  {
    assert (batches + [batch])[..|batches|] == batches;
  }

  /** A frame that does not settle is decoded differently from the whole stream and from the stream cut behind it. */
  lemma UnsettledDiffers(s: seq<byte>, m: nat)
    requires m < |Scan(s, 0).events| && Scan(s, 0).events[m].verdict.Accepted? && !Settles(s, Scan(s, 0).events, m)
    ensures var e := SettledAt(Scan(s, 0).events[..m + 1]);
      && e <= |s| && Stream(Whole(s)) == Stream(CutAt(s, e)) == s
      && RecordsOf(Whole(s)) != RecordsOf(CutAt(s, e))
  {
    hide Stream, Scan, Offsets, SettledAt, View, Arrivals, Readable, Deserialize;
    var events := Scan(s, 0).events;
    var e, k := SettledAt(events[..m + 1]), |Offsets(events[..m])|;
    SettledRange(s, m);
    AcceptedNeeds(events[m].verdict);
    AcceptedWhenSettled(s, e, m);
    OffsetOf(events, m);
    WholeArrives(s);
    CutArrives(s, e, k);
    AcceptedGrows(s, e);
    var i := events[m].at + PAYLOAD_INDEX;
    assert RecordsOf(Whole(s))[k] == Deserialize(View(s, i, |s|));
    assert RecordsOf(CutAt(s, e))[k] == Deserialize(View(s, i, e));
    ReadableDecodes(View(s, i, |s|));
    ReadableDecodes(View(s, i, e));
  }

  lemma ReadableDecodes(view: seq<byte>)
    ensures Deserialize(view).Some? <==> Readable(view)
  {}

  /** All ways to cut a stream yield the same records exactly if every accepted frame of it settles. */
  lemma CutsDoNotMatterIff(s: seq<byte>)
    ensures var events := Scan(s, 0).events;
      (forall b, c :: Stream(b) == s && Stream(c) == s ==> RecordsOf(b) == RecordsOf(c))
      <==> (forall m: nat :: m < |events| && events[m].verdict.Accepted? ==> Settles(s, events, m))
  {
    hide Stream, Scan, Settles, RecordsOf;
    var events := Scan(s, 0).events;
    if m: nat :| m < |events| && events[m].verdict.Accepted? && !Settles(s, events, m) {
      UnsettledDiffers(s, m);
    } else {
      forall b, c | Stream(b) == s && Stream(c) == s ensures RecordsOf(b) == RecordsOf(c) {
        SameForAllCuts(b, c);
      }
    }
  }
}
