/**
  The single-producer single-consumer ring, as interleaved atomic steps of its two threads: one step per load or store
  of an index and per access to a slot. The ring has one slot more than the capacity it was asked for.
 */
module SpscProtocol {
  import opened Bitmask
  import opened Sequences

  /** A slot holds a value, was never written, or had its value moved out by the batch pop. */
  datatype Slot<T> = Unwritten | Full(value: T) | MovedOut

  datatype Producer<T> =
    | ProducerIdle
    | PushLoadTail(value: T)
    | PushLoadHead(value: T, tail: nat)
    | PushWrite(value: T, tail: nat, next: nat)
    | PushAdvance(value: T, tail: nat, next: nat)
    | PushDone                                                             // returned true
    | PushFull                                                             // returned false

  datatype Consumer<T> =
    | ConsumerIdle
    | PopLoadHead
    | PopLoadTail(head: nat)
    | PopRead(head: nat)
    | PopAdvance(head: nat, value: T)
    | PopDone(value: T)
    | PopEmpty
    | AllLoadHead(out: seq<T>)
    | AllLoadTail(out: seq<T>, head: nat)
    | AllMove(out: seq<T>, taken: seq<T>, head: nat, tail: nat, available: int)
    | AllDone(out: seq<T>, count: nat)
    | Fault                                                                // took a value from a slot that has none

  /**
    The shared ring, the two threads, and a history the code does not keep: all values whose tail store has happened,
    all values whose head store has happened, and for a batch pop the two counts it started from.
   */
  datatype State<T> = State(
    buffer: seq<Slot<T>>, head: nat, tail: nat, producer: Producer<T>, consumer: Consumer<T>,
    pushed: seq<T>, delivered: seq<T>, from: nat, limit: nat)

  ghost predicate Init<T>(s: State<T>, capacity: nat) {
    && |s.buffer| == capacity + 1
    && s.head == s.tail == 0 && s.producer == ProducerIdle && s.consumer == ConsumerIdle
    && s.pushed == [] && s.delivered == [] && s.from == s.limit == 0
  }

  datatype Move<T> = CallPush(value: T) | RunProducer | CallPop | CallPopAll(out: seq<T>) | RunConsumer

  predicate ProducerRests<T>(p: Producer<T>) {
    p.ProducerIdle? || p.PushDone? || p.PushFull?
  }

  predicate ConsumerRests<T>(c: Consumer<T>) {
    c.ConsumerIdle? || c.PopDone? || c.PopEmpty? || c.AllDone? || c.Fault?
  }

  /** Index i of an unbounded count, in a ring of m slots. */
  function Spot(i: nat, m: nat): (r: nat)
    requires m > 0
    ensures r < m
  {
    i % m
  }

  /** The wrap-around count of slots from head to tail. */
  function Available(head: nat, tail: nat, m: nat): int {
    if tail >= head then tail - head else m - head + tail
  }

  ghost predicate InRange<T>(s: State<T>) {
    && |s.buffer| > 0
    && s.head < |s.buffer| && s.tail < |s.buffer|
    && (s.producer.PushLoadHead? || s.producer.PushWrite? || s.producer.PushAdvance? ==> s.producer.tail < |s.buffer|)
    && (s.producer.PushWrite? || s.producer.PushAdvance? ==> s.producer.next < |s.buffer|)
    && (s.consumer.PopLoadTail? || s.consumer.AllLoadTail? || s.consumer.AllMove? ==> s.consumer.head < |s.buffer|)
    && (s.consumer.PopRead? || s.consumer.PopAdvance? ==> s.consumer.head < |s.buffer|)
  }

  ghost function ProducerStep<T>(s: State<T>): State<T>
    requires InRange(s)
  {
    var m := |s.buffer|;
    match s.producer
    case PushLoadTail(v) => s.(producer := PushLoadHead(v, s.tail))
    case PushLoadHead(v, tail) =>
      var next := Spot(tail + 1, m);
      if next == s.head then s.(producer := PushFull)
      else s.(producer := PushWrite(v, tail, next))
    case PushWrite(v, tail, next) =>
      s.(buffer := s.buffer[tail := Full(v)], producer := PushAdvance(v, tail, next))
    case PushAdvance(v, tail, next) =>
      s.(tail := next, pushed := s.pushed + [v], producer := PushDone)
    case _ => s
  }

  ghost function ConsumerStep<T>(s: State<T>): State<T>
    requires InRange(s)
  {
    var m := |s.buffer|;
    match s.consumer
    case PopLoadHead => s.(consumer := PopLoadTail(s.head))
    case PopLoadTail(head) =>
      if head == s.tail then s.(consumer := PopEmpty) else s.(consumer := PopRead(head))
    case PopRead(head) =>
      if s.buffer[head].Full? then s.(consumer := PopAdvance(head, s.buffer[head].value)) else s.(consumer := Fault)
    case PopAdvance(head, v) =>
      s.(head := Spot(head + 1, m), delivered := s.delivered + [v], consumer := PopDone(v))
    case AllLoadHead(out) => s.(consumer := AllLoadTail(out, s.head))
    case AllLoadTail(out, head) =>
      if head == s.tail then s.(consumer := AllDone(out, 0), from := |s.delivered|, limit := |s.delivered|)
      else
        s.(consumer := AllMove(out, [], head, s.tail, Available(head, s.tail, m)),
           from := |s.delivered|, limit := |s.pushed|)
    case AllMove(out, taken, head, tail, available) =>
      if head == tail then
        s.(head := head, delivered := s.delivered + taken, consumer := AllDone(out + taken, |taken|))
      else if s.buffer[head].Full? then
        s.(buffer := s.buffer[head := MovedOut],
           consumer := AllMove(out, taken + [s.buffer[head].value], Spot(head + 1, m), tail, available))
      else s.(consumer := Fault)
    case _ => s
  }

  ghost function Apply<T>(s: State<T>, move: Move<T>): State<T>
    requires InRange(s)
  {
    match move
    case CallPush(v) => if ProducerRests(s.producer) then s.(producer := PushLoadTail(v)) else s
    case RunProducer => ProducerStep(s)
    case CallPop => if ConsumerRests(s.consumer) then s.(consumer := PopLoadHead) else s
    case CallPopAll(out) => if ConsumerRests(s.consumer) then s.(consumer := AllLoadHead(out)) else s
    case RunConsumer => ConsumerStep(s)
  }

  // ---- Counts and spots ----------------------------------------------------------------------------------

  lemma SpotNext(i: nat, m: nat)
    requires m > 0
    ensures Spot(Spot(i, m) + 1, m) == Spot(i + 1, m)
  {
    var q, r := i / m, i % m;
    assert i == m * q + r;
    Distribute(m, q + 1, 1);
    if r + 1 < m {
      RemainderUnique(i + 1, m, q, r + 1);
      RemainderUnique(r + 1, m, 0, r + 1);
    } else {
      RemainderUnique(i + 1, m, q + 1, 0);
      RemainderUnique(m, m, 1, 0);
    }
  }

  lemma SpotSelf(i: nat, m: nat)
    requires i < m
    ensures Spot(i, m) == i
  {}

  /** Counts less than a lap apart have different spots. */
  lemma SpotApart(i: nat, j: nat, m: nat)
    requires m > 0 && i < j < i + m
    ensures Spot(i, m) != Spot(j, m)
  {
    if Spot(i, m) == Spot(j, m) {
      SameSlot(m, i, j);
    }
  }

  /** The wrap-around formula counts the slots in between. */
  lemma AvailableCounts(i: nat, j: nat, m: nat)
    requires m > 0 && i <= j < i + m
    ensures Available(Spot(i, m), Spot(j, m), m) == j - i
  {
    var q, r := i / m, i % m;
    assert i == m * q + r;
    var d := j - i;
    if r + d < m {
      RemainderUnique(j, m, q, r + d);
    } else {
      Distribute(m, q + 1, 1);
      RemainderUnique(j, m, q + 1, r + d - m);
    }
  }

  // ---- The invariant -------------------------------------------------------------------------------------

  /** How many values a running batch pop has moved out. */
  function Taken<T>(c: Consumer<T>): nat {
    if c.AllMove? then |c.taken| else 0
  }

  /** The slots that hold a value nobody has taken. */
  ghost predicate Stored<T>(s: State<T>)
    requires |s.buffer| > 0
  {
    forall i: nat :: |s.delivered| + Taken(s.consumer) <= i < |s.pushed| ==>
      s.buffer[Spot(i, |s.buffer|)] == Full(s.pushed[i])
  }

  ghost predicate ProducerOk<T>(s: State<T>)
    requires |s.buffer| > 0
  {
    var m := |s.buffer|;
    match s.producer
    case PushLoadHead(_, tail) => tail == s.tail
    case PushWrite(_, tail, next) =>
      tail == s.tail && next == Spot(|s.pushed| + 1, m) && |s.pushed| + 1 < |s.delivered| + m
    case PushAdvance(v, tail, next) =>
      && tail == s.tail && next == Spot(|s.pushed| + 1, m) && |s.pushed| + 1 < |s.delivered| + m
      && tail < m && s.buffer[tail] == Full(v)
    case _ => true
  }

  ghost predicate ConsumerOk<T>(s: State<T>)
    requires |s.buffer| > 0 && |s.delivered| <= |s.pushed|
  {
    var m, h := |s.buffer|, |s.delivered|;
    match s.consumer
    case PopLoadTail(head) => head == s.head
    case PopRead(head) => head == s.head && h < |s.pushed|
    case PopAdvance(head, v) => head == s.head && h < |s.pushed| && v == s.pushed[h]
    case AllLoadTail(_, head) => head == s.head
    case AllMove(_, taken, head, tail, available) =>
      && s.from == h && h + |taken| <= s.limit <= |s.pushed|
      && head == Spot(h + |taken|, m) && tail == Spot(s.limit, m)
      && taken == s.pushed[h..h + |taken|] && available == s.limit - h
    case AllDone(out, count) =>
      && s.from <= s.limit <= h
      && count == s.limit - s.from <= |out| && out[|out| - count..] == s.pushed[s.from..s.limit]
    case Fault => false
    case _ => true
  }

  ghost predicate Inv<T>(s: State<T>) {
    && |s.buffer| > 0
    && |s.delivered| <= |s.pushed| < |s.delivered| + |s.buffer|
    && s.delivered == s.pushed[..|s.delivered|]
    && s.head == Spot(|s.delivered|, |s.buffer|) && s.tail == Spot(|s.pushed|, |s.buffer|)
    && Stored(s) && ProducerOk(s) && ConsumerOk(s)
  }

  lemma InitInv<T>(s: State<T>, capacity: nat)
    requires Init(s, capacity)
    ensures Inv(s)
  {}

  // ---- Every step keeps the invariant --------------------------------------------------------------------

  lemma InvInRange<T>(s: State<T>)
    requires Inv(s)
    ensures InRange(s)
  {}

  lemma CheckRoom<T>(s: State<T>)
    requires Inv(s) && s.producer.PushLoadHead?
    ensures InRange(s) && Inv(ProducerStep(s))
  {
    hide Spot;
    var m, t, h := |s.buffer|, |s.pushed|, |s.delivered|;
    SpotSelf(s.tail, m);
    SpotNext(t, m);
    if t + 1 == h + m {
      LapSpot(h, m);
    }
    hide ConsumerOk, Stored;
    assert Stored(ProducerStep(s)) && ConsumerOk(ProducerStep(s)) by {
      OnlyProducer(s, ProducerStep(s));
    }
  }

  lemma OnlyProducer<T>(s: State<T>, s': State<T>)
    requires Inv(s) && s' == s.(producer := s'.producer)
    ensures Stored(s') && ConsumerOk(s')
  {}

  lemma WriteSlot<T>(s: State<T>)
    requires Inv(s) && s.producer.PushWrite?
    ensures InRange(s) && Inv(ProducerStep(s))
  {
    hide Spot;
    var m, t, h := |s.buffer|, |s.pushed|, |s.delivered|;
    var s' := ProducerStep(s);
    forall i: nat | h + Taken(s.consumer) <= i < t ensures s'.buffer[Spot(i, m)] == Full(s.pushed[i]) {
      SpotApart(i, t, m);
    }
  }

  lemma AdvanceTail<T>(s: State<T>)
    requires Inv(s) && s.producer.PushAdvance?
    ensures InRange(s) && Inv(ProducerStep(s))
  {
    hide Spot;
    var m, t, h := |s.buffer|, |s.pushed|, |s.delivered|;
    var s' := ProducerStep(s);
    assert s'.pushed[..t] == s.pushed;
    forall i: nat | h + Taken(s.consumer) <= i < t + 1 ensures s'.buffer[Spot(i, m)] == Full(s'.pushed[i]) {
    }
    assert s'.delivered == s'.pushed[..h];
    AppendKeepsConsumer(s, s');
  }

  lemma AppendKeepsConsumer<T>(s: State<T>, s': State<T>)
    requires Inv(s) && s'.consumer == s.consumer && s'.head == s.head && |s'.buffer| == |s.buffer|
    requires s'.delivered == s.delivered && s'.from == s.from && s'.limit == s.limit
    requires |s'.pushed| >= |s.pushed| && s'.pushed[..|s.pushed|] == s.pushed
    ensures ConsumerOk(s')
  {
    hide Spot, Stored, ProducerOk;
    var n := |s.pushed|;
    match s.consumer {
      case PopAdvance(_, _) => assert s'.pushed[..n][|s.delivered|] == s.pushed[|s.delivered|];
      case AllMove(_, taken, _, _, _) =>
        SliceOfPrefix(s'.pushed, n, |s.delivered|, |s.delivered| + |taken|);
      case AllDone(_, _) => SliceOfPrefix(s'.pushed, n, s.from, s.limit);
      case _ =>
    }
  }

  lemma ProducerKeepsInv<T>(s: State<T>)
    requires Inv(s)
    ensures InRange(s) && Inv(ProducerStep(s))
  {
    InvInRange(s);
    match s.producer {
      case PushLoadHead(_, _) => CheckRoom(s);
      case PushWrite(_, _, _) => WriteSlot(s);
      case PushAdvance(_, _, _) => AdvanceTail(s);
      case _ =>
        assert Inv(ProducerStep(s)) by {
          hide Spot;
          OnlyProducer(s, ProducerStep(s));
        }
    }
  }

  lemma LapSpot(i: nat, m: nat)
    requires m > 0
    ensures Spot(i + m, m) == Spot(i, m)
  {
    NextLap(m, i);
  }

  lemma OnlyConsumer<T>(s: State<T>, s': State<T>)
    requires Inv(s) && s' == s.(consumer := s'.consumer, from := s'.from, limit := s'.limit)
    requires !s.consumer.AllMove? && Taken(s'.consumer) == 0
    ensures Stored(s') && ProducerOk(s')
  {}

  lemma LoadTail<T>(s: State<T>)
    requires Inv(s) && (s.consumer.PopLoadTail? || s.consumer.AllLoadTail?)
    ensures InRange(s) && Inv(ConsumerStep(s))
  {
    var m, t, h := |s.buffer|, |s.pushed|, |s.delivered|;
    SpotSelf(s.head, m);
    AvailableCounts(h, t, m);
    OnlyConsumer(s, ConsumerStep(s));
    hide Spot, Stored, ProducerOk;
  }

  lemma AdvanceHead<T>(s: State<T>)
    requires Inv(s) && s.consumer.PopAdvance?
    ensures InRange(s) && Inv(ConsumerStep(s))
  {
    hide Spot;
    var h := |s.delivered|;
    SpotNext(h, |s.buffer|);
    assert s.pushed[..h + 1] == s.pushed[..h] + [s.pushed[h]];
  }

  lemma ReadSlot<T>(s: State<T>)
    requires Inv(s) && s.consumer.PopRead?
    ensures InRange(s) && Inv(ConsumerStep(s))
  {}

  /** The slot that a batch pop takes next. */
  lemma NextTaken<T>(s: State<T>)
    requires Inv(s) && s.consumer.AllMove? && s.consumer.head != s.consumer.tail
    ensures var i := |s.delivered| + |s.consumer.taken|;
      && i < s.limit <= |s.pushed| && s.consumer.head == Spot(i, |s.buffer|)
      && s.buffer[s.consumer.head] == Full(s.pushed[i])
  {
    hide Spot;
    var i := |s.delivered| + |s.consumer.taken|;
    assert i < s.limit;
    assert s.buffer[Spot(i, |s.buffer|)] == Full(s.pushed[i]);
  }

  lemma MovedStored<T>(s: State<T>, s': State<T>)
    requires Inv(s) && s.consumer.AllMove? && s.consumer.head != s.consumer.tail
    requires InRange(s) && s' == ConsumerStep(s)
    ensures Stored(s') && ProducerOk(s')
  {
    NextTaken(s);
    var m, t, i := |s.buffer|, |s.pushed|, |s.delivered| + |s.consumer.taken|;
    hide Spot, ConsumerOk;
    forall j: nat | i + 1 <= j < t ensures s'.buffer[Spot(j, m)] == Full(s.pushed[j]) {
      SpotApart(i, j, m);
      assert s.buffer[Spot(j, m)] == Full(s.pushed[j]);
    }
    SpotApart(i, t, m);
  }

  lemma MovedConsumer<T>(s: State<T>, s': State<T>)
    requires Inv(s) && s.consumer.AllMove? && s.consumer.head != s.consumer.tail
    requires InRange(s) && s' == ConsumerStep(s)
    ensures ConsumerOk(s')
  {
    NextTaken(s);
    hide Spot, Stored, ProducerOk;
    var i := |s.delivered| + |s.consumer.taken|;
    SpotNext(i, |s.buffer|);
    GrowSlice(s.pushed, |s.delivered|, i);
  }

  /** One slot moved out: it stays the consumer's, and the producer cannot be writing it. */
  lemma MoveSlot<T>(s: State<T>)
    requires Inv(s) && s.consumer.AllMove? && s.consumer.head != s.consumer.tail
    ensures InRange(s) && Inv(ConsumerStep(s))
  {
    InvInRange(s);
    var s' := ConsumerStep(s);
    MovedStored(s, s');
    MovedConsumer(s, s');
    hide Spot, Stored, ProducerOk, ConsumerOk;
  }

  /** The single head store behind the batch. */
  lemma AdvanceHeadByBatch<T>(s: State<T>)
    requires Inv(s) && s.consumer.AllMove? && s.consumer.head == s.consumer.tail
    ensures InRange(s) && Inv(ConsumerStep(s))
    ensures |s.consumer.taken| == s.consumer.available
  {
    hide Spot;
    var m, h, k := |s.buffer|, |s.delivered|, |s.consumer.taken|;
    if h + k < s.limit {
      SpotApart(h + k, s.limit, m);
    }
    var s' := ConsumerStep(s);
    assert s.pushed[..h + k] == s.pushed[..h] + s.pushed[h..h + k];
    var out := s.consumer.out;
    assert (out + s.consumer.taken)[|out|..] == s.consumer.taken;
  }

  lemma ConsumerKeepsInv<T>(s: State<T>)
    requires Inv(s)
    ensures InRange(s) && Inv(ConsumerStep(s))
  {
    InvInRange(s);
    match s.consumer {
      case PopLoadTail(_) => LoadTail(s);
      case AllLoadTail(_, _) => LoadTail(s);
      case PopRead(_) => ReadSlot(s);
      case PopAdvance(_, _) => AdvanceHead(s);
      case AllMove(_, _, head, tail, _) =>
        if head == tail {
          AdvanceHeadByBatch(s);
        } else {
          MoveSlot(s);
        }
      case _ =>
        assert Inv(ConsumerStep(s)) by {
          hide Spot;
          OnlyConsumer(s, ConsumerStep(s));
        }
    }
  }

  lemma ApplyKeepsInv<T>(s: State<T>, move: Move<T>)
    requires Inv(s)
    ensures InRange(s) && Inv(Apply(s, move))
  {
    InvInRange(s);
    match move {
      case RunProducer => ProducerKeepsInv(s);
      case RunConsumer => ConsumerKeepsInv(s);
      case CallPush(_) => OnlyProducer(s, Apply(s, move));
      case CallPop =>
        if ConsumerRests(s.consumer) {
          OnlyConsumer(s, Apply(s, move));
        }
      case CallPopAll(_) =>
        if ConsumerRests(s.consumer) {
          OnlyConsumer(s, Apply(s, move));
        }
    }
    hide Spot, Stored;
  }

  // ---- Runs ----------------------------------------------------------------------------------------------

  /** Any interleaving of the two threads. */
  ghost function Execute<T>(s: State<T>, moves: seq<Move<T>>): (r: State<T>)
    requires Inv(s)
    ensures Inv(r)
    decreases |moves|
  {
    if |moves| == 0 then s
    else
      ApplyKeepsInv(s, moves[0]);
      Execute(Apply(s, moves[0]), moves[1..])
  }

  /** The values physically stored from one index, slot after slot around the ring. */
  function Ring<T>(buffer: seq<Slot<T>>, at: nat, n: nat): seq<Slot<T>>
    requires at < |buffer|
    decreases n
  {
    if n == 0 then [] else [buffer[at]] + Ring(buffer, Spot(at + 1, |buffer|), n - 1)
  }

  /** Where the consumer will take its next value from. */
  function Cursor<T>(s: State<T>): nat {
    if s.consumer.AllMove? then s.consumer.head else s.head
  }

  function InHand<T>(s: State<T>): seq<T> {
    if s.consumer.AllMove? then s.consumer.taken else []
  }

  function Filled<T>(values: seq<T>): (r: seq<Slot<T>>)
    ensures |r| == |values| && forall i :: 0 <= i < |r| ==> r[i] == Full(values[i])
  {
    seq(|values|, i requires 0 <= i < |values| => Full(values[i]))
  }

  lemma {:induction false} RingHolds<T>(s: State<T>, i: nat)
    requires Inv(s) && |s.delivered| + Taken(s.consumer) <= i <= |s.pushed|
    ensures Ring(s.buffer, Spot(i, |s.buffer|), |s.pushed| - i) == Filled(s.pushed[i..])
    decreases |s.pushed| - i
  {
    hide Spot, Stored, ProducerOk, ConsumerOk, Filled, Taken;
    if i == |s.pushed| {
      assert Filled(s.pushed[i..]) == [];
    } else {
      RingHolds(s, i + 1);
      SpotNext(i, |s.buffer|);
      StoredAt(s, i);
      FilledFrom(s.pushed, i);
    }
  }

  lemma StoredAt<T>(s: State<T>, i: nat)
    requires Inv(s) && |s.delivered| + Taken(s.consumer) <= i < |s.pushed|
    ensures s.buffer[Spot(i, |s.buffer|)] == Full(s.pushed[i])
  {
    hide Spot;
  }

  lemma FilledFrom<T>(values: seq<T>, i: nat)
    requires i < |values|
    ensures Filled(values[i..]) == [Full(values[i])] + Filled(values[i + 1..])
  {}

  /**
    Conservation in every interleaving: what was delivered, what a batch pop has in hand, and what lies in the ring
    from the consumer's cursor to the tail are together exactly what was pushed, in order; and the ring never holds
    more than the capacity asked for.
   */
  lemma EveryRun<T>(start: State<T>, capacity: nat, moves: seq<Move<T>>)
    requires Init(start, capacity)
    ensures Inv(start)
    ensures var s := Execute(start, moves); var m := capacity + 1;
      && |s.buffer| == m && Cursor(s) < m
      && !s.consumer.Fault?
      && var n := Available(Cursor(s), s.tail, m);
      && 0 <= n <= capacity && |InHand(s)| + n <= capacity
      && |s.delivered| + |InHand(s)| + n == |s.pushed|
      && var values := s.pushed[|s.pushed| - n..];
      && Ring(s.buffer, Cursor(s), n) == Filled(values)
      && s.delivered + InHand(s) + values == s.pushed
  {
    InitInv(start, capacity);
    ExecuteKeepsSize(start, moves);
    Conservation(Execute(start, moves));
  }

  lemma {:induction false} ExecuteKeepsSize<T>(s: State<T>, moves: seq<Move<T>>)
    requires Inv(s)
    ensures |Execute(s, moves).buffer| == |s.buffer|
    decreases |moves|
  {
    if moves != [] {
      ApplyKeepsInv(s, moves[0]);
      ExecuteKeepsSize(Apply(s, moves[0]), moves[1..]);
    }
  }

  lemma CursorSpot<T>(s: State<T>)
    requires Inv(s)
    ensures var i := |s.delivered| + Taken(s.consumer);
      && i <= |s.pushed| && Cursor(s) == Spot(i, |s.buffer|) && InHand(s) == s.pushed[|s.delivered|..i]
  {}

  lemma Conservation<T>(s: State<T>)
    requires Inv(s)
    ensures Cursor(s) < |s.buffer|
    ensures var n := Available(Cursor(s), s.tail, |s.buffer|);
      && n >= 0 && |InHand(s)| + n < |s.buffer|
      && |s.delivered| + |InHand(s)| + n == |s.pushed|
      && var values := s.pushed[|s.pushed| - n..];
      && Ring(s.buffer, Cursor(s), n) == Filled(values)
      && s.delivered + InHand(s) + values == s.pushed
  {
    hide Inv, Spot, Available, Ring, Cursor, InHand, Filled, Taken;
    var h, i := |s.delivered|, |s.delivered| + Taken(s.consumer);
    CountsInRing(s);
    CursorSpot(s);
    RingHolds(s, i);
    SplitThree(s.pushed, h, i);
  }

  lemma CountsInRing<T>(s: State<T>)
    requires Inv(s)
    ensures var i := |s.delivered| + Taken(s.consumer);
      i <= |s.pushed| && Available(Cursor(s), s.tail, |s.buffer|) == |s.pushed| - i
    ensures s.delivered == s.pushed[..|s.delivered|] && |s.pushed| - |s.delivered| < |s.buffer|
  {
    CursorSpot(s);
    AvailableCounts(|s.delivered| + Taken(s.consumer), |s.pushed|, |s.buffer|);
    hide Spot, Available, Stored, ProducerOk, ConsumerOk, Cursor;
  }

  // ---- What a false result means -------------------------------------------------------------------------

  /** At its head load, a push fails exactly if the ring then holds as many undelivered values as it has room for. */
  lemma PushFailsIffFull<T>(s: State<T>)
    requires Inv(s) && s.producer.PushLoadHead?
    ensures InRange(s)
    ensures ProducerStep(s).producer.PushFull? <==> |s.pushed| - |s.delivered| == |s.buffer| - 1
  {
    hide Spot, Stored;
    var m, t, h := |s.buffer|, |s.pushed|, |s.delivered|;
    InvInRange(s);
    SpotNext(t, m);
    if t + 1 == h + m {
      LapSpot(h, m);
    } else {
      SpotApart(h, t + 1, m);
    }
  }

  /** At its tail load, a pop, single or batch, finds nothing exactly if everything pushed has been delivered. */
  lemma PopFailsIffEmpty<T>(s: State<T>)
    requires Inv(s) && (s.consumer.PopLoadTail? || s.consumer.AllLoadTail?)
    ensures InRange(s)
    ensures ConsumerStep(s).consumer.PopEmpty? || ConsumerStep(s).consumer.AllDone? <==> s.delivered == s.pushed
  {
    var m, t, h := |s.buffer|, |s.pushed|, |s.delivered|;
    InvInRange(s);
    hide Spot, Stored;
    if h < t {
      SpotApart(h, t, m);
    } else {
      assert s.pushed[..h] == s.pushed;
    }
  }

  // ---- No slot is touched from both sides ----------------------------------------------------------------

  /** The slot the producer writes is none that the consumer will still take, nor one it has in its batch. */
  lemma WrittenSlotIsFree<T>(s: State<T>, i: nat)
    requires Inv(s) && (s.producer.PushWrite? || s.producer.PushAdvance?)
    requires |s.delivered| <= i < |s.pushed|
    ensures s.producer.tail != Spot(i, |s.buffer|)
  {
    hide Stored;
    SpotApart(i, |s.pushed|, |s.buffer|);
    hide Spot;
  }

  /** The slot the consumer takes from holds a pushed value that nobody has taken. */
  lemma TakenSlotIsFull<T>(s: State<T>)
    requires Inv(s)
    requires s.consumer.PopRead? || (s.consumer.AllMove? && s.consumer.head != s.consumer.tail)
    ensures var i := |s.delivered| + Taken(s.consumer);
      && i < |s.pushed| && s.consumer.head < |s.buffer|
      && s.buffer[s.consumer.head] == Full(s.pushed[i])
  {}

  // ---- A batch moves its slots out -----------------------------------------------------------------------

  /** While a batch pop runs, every slot it has passed is moved out, up to its cursor. */
  ghost predicate Drained<T>(s: State<T>)
    requires |s.buffer| > 0
  {
    forall i: nat :: |s.delivered| <= i < |s.delivered| + Taken(s.consumer) ==>
      s.buffer[Spot(i, |s.buffer|)] == MovedOut
  }

  lemma ApplyKeepsDrained<T>(s: State<T>, move: Move<T>)
    requires Inv(s) && Drained(s)
    ensures InRange(s) && |Apply(s, move).buffer| > 0 && Drained(Apply(s, move))
  {
    InvInRange(s);
    if move.RunProducer? && s.producer.PushWrite? {
      WriteKeepsDrained(s);
    } else if move.RunConsumer? && s.consumer.AllMove? && s.consumer.head != s.consumer.tail {
      MoveDrains(s);
    }
    hide Spot, Stored, ProducerOk, ConsumerOk;
  }

  lemma WriteKeepsDrained<T>(s: State<T>)
    requires Inv(s) && Drained(s) && s.producer.PushWrite?
    ensures InRange(s) && Drained(ProducerStep(s))
  {
    InvInRange(s);
    DrainedBehindTail(s);
    hide Spot, Stored;
    forall i: nat | |s.delivered| <= i < |s.delivered| + Taken(s.consumer)
      ensures ProducerStep(s).buffer[Spot(i, |s.buffer|)] == MovedOut
    {
      WrittenSlotIsFree(s, i);
    }
  }

  lemma DrainedBehindTail<T>(s: State<T>)
    requires Inv(s)
    ensures |s.delivered| + Taken(s.consumer) <= |s.pushed|
  {
    hide Spot, Stored, ProducerOk;
  }

  lemma MoveDrains<T>(s: State<T>)
    requires Inv(s) && Drained(s) && s.consumer.AllMove? && s.consumer.head != s.consumer.tail
    ensures InRange(s) && Drained(ConsumerStep(s))
  {
    InvInRange(s);
    NextTaken(s);
    hide Spot, Stored, ProducerOk, ConsumerOk;
  }

  lemma {:induction false} ExecuteKeepsDrained<T>(s: State<T>, moves: seq<Move<T>>)
    requires Inv(s) && Drained(s)
    ensures Drained(Execute(s, moves))
    decreases |moves|
  {
    if moves != [] {
      ApplyKeepsInv(s, moves[0]);
      ApplyKeepsDrained(s, moves[0]);
      hide Apply, Drained;
      ExecuteKeepsDrained(Apply(s, moves[0]), moves[1..]);
    }
  }

  /** So it is in every interleaving from a fresh ring. */
  lemma EveryBatchDrains<T>(start: State<T>, capacity: nat, moves: seq<Move<T>>)
    requires Init(start, capacity)
    ensures Inv(start) && Drained(Execute(start, moves))
  {
    InitInv(start, capacity);
    ExecuteKeepsDrained(start, moves);
  }

  // ---- Refinement of a bounded FIFO ----------------------------------------------------------------------

  /** The queue the ring implements: pushed values whose delivery is not complete. */
  ghost function Contents<T>(s: State<T>): seq<T>
    requires |s.delivered| <= |s.pushed|
  {
    s.pushed[|s.delivered|..]
  }

  lemma TailStoreAppends<T>(s: State<T>)
    requires Inv(s) && s.producer.PushAdvance?
    ensures InRange(s) && |s.delivered| <= |ProducerStep(s).pushed|
    ensures |Contents(s)| + 1 < |s.buffer| && Contents(ProducerStep(s)) == Contents(s) + [s.producer.value]
  {
    InvInRange(s);
    hide Spot, Stored, ConsumerOk;
    SuffixOfAppended(s.pushed, s.producer.value, |s.delivered|);
  }

  lemma HeadStoreRemoves<T>(s: State<T>)
    requires Inv(s) && s.consumer.PopAdvance?
    ensures InRange(s) && |ConsumerStep(s).delivered| <= |s.pushed|
    ensures Contents(s) == [s.consumer.value] + Contents(ConsumerStep(s))
  {
    InvInRange(s);
    hide Spot, Stored, ProducerOk;
    SplitSuffix(s.pushed, |s.delivered|, 1);
  }

  lemma BatchStoreRemoves<T>(s: State<T>)
    requires Inv(s) && s.consumer.AllMove? && s.consumer.head == s.consumer.tail
    ensures InRange(s) && |ConsumerStep(s).delivered| <= |s.pushed|
    ensures var s' := ConsumerStep(s);
      && Contents(s) == s.consumer.taken + Contents(s')
      && s'.consumer == AllDone(s.consumer.out + s.consumer.taken, |s.consumer.taken|)
      && s.consumer.available == |s.consumer.taken|
  {
    AdvanceHeadByBatch(s);
    hide Spot, Stored, ProducerOk;
    SplitSuffix(s.pushed, |s.delivered|, |s.consumer.taken|);
  }

  /**
    The tail store appends one value to a queue that is not full, a head store removes a prefix, which is what the pop
    returns, and no other step changes the queue.
   */
  lemma StepRefinesFifo<T>(s: State<T>, move: Move<T>)
    requires Inv(s)
    ensures InRange(s) && Inv(Apply(s, move))
    ensures var q, s' := Contents(s), Apply(s, move); var q' := Contents(s');
      if move.RunProducer? && s.producer.PushAdvance? then
        |q| + 1 < |s.buffer| && q' == q + [s.producer.value]
      else if move.RunConsumer? && s.consumer.PopAdvance? then
        q == [s.consumer.value] + q'
      else if move.RunConsumer? && s.consumer.AllMove? && s.consumer.head == s.consumer.tail then
        && q == s.consumer.taken + q'
        && s'.consumer == AllDone(s.consumer.out + s.consumer.taken, s.consumer.available)
      else q' == q
  {
    ApplyKeepsInv(s, move);
    hide Inv, InRange, Spot;
    if move.RunProducer? && s.producer.PushAdvance? {
      TailStoreAppends(s);
    } else if move.RunConsumer? && s.consumer.PopAdvance? {
      HeadStoreRemoves(s);
    } else if move.RunConsumer? && s.consumer.AllMove? && s.consumer.head == s.consumer.tail {
      BatchStoreRemoves(s);
    } else {
      assert Apply(s, move).pushed == s.pushed && Apply(s, move).delivered == s.delivered;
    }
  }
}
