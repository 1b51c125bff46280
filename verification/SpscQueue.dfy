/**
  The single-producer single-consumer queue as an object updated in place. `Perform` carries out one atomic step of one
  side on the ring and its indices. `Push`, `Pop` and `PopAll` follow the source's methods, with an arbitrary batch of
  the other side's steps in front of every atomic step of their own.
 */
module SpscQueue {
  import opened SpscProtocol
  import opened Wrappers

  class SpscQueue<T(0)> {
    const buffer: array<Slot<T>>
    var head: nat
    var tail: nat

    /** Where the two threads stand; the local variables of their calls. */
    var producer: Producer<T>
    var consumer: Consumer<T>

    ghost var pushed: seq<T>
    ghost var delivered: seq<T>
    ghost var from: nat
    ghost var limit: nat

    ghost function Snapshot(): State<T>
      reads this, buffer
    {
      State(buffer[..], head, tail, producer, consumer, pushed, delivered, from, limit)
    }

    ghost predicate Valid()
      reads this, buffer
    {
      Inv(Snapshot())
    }

    /** How many values are pushed and not delivered. */
    ghost function Held(): int
      reads this
    {
      |pushed| - |delivered|
    }

    constructor (capacity: nat)
      ensures Valid() && fresh(buffer) && Init(Snapshot(), capacity)
    {
      buffer := new Slot<T>[capacity + 1](_ => Unwritten);
      head, tail, producer, consumer := 0, 0, ProducerIdle, ConsumerIdle;
      pushed, delivered, from, limit := [], [], 0, 0;
      new;
      InitInv(Snapshot(), capacity);
    }

    /** One atomic step of one side, in place. */
    method Perform(move: Move<T>)
      requires Valid()
      modifies this, buffer
      ensures Valid() && Snapshot() == Apply(old(Snapshot()), move)
    {
      hide Inv, Spot;
      ghost var s := Snapshot();
      ApplyKeepsInv(s, move);
      InvInRange(s);
      match move {
        case CallPush(v) =>
          if ProducerRests(producer) {
            producer := PushLoadTail(v);
          }
        case CallPop =>
          if ConsumerRests(consumer) {
            consumer := PopLoadHead;
          }
        case CallPopAll(out) =>
          if ConsumerRests(consumer) {
            consumer := AllLoadHead(out);
          }
        case RunProducer => RunProducerStep();
        case RunConsumer => RunConsumerStep();
      }
    }

    method RunProducerStep()
      requires InRange(Snapshot())
      modifies this, buffer
      ensures Snapshot() == ProducerStep(old(Snapshot()))
    {
      hide Spot;
      match producer {
        case PushLoadTail(v) =>
          producer := PushLoadHead(v, tail);
        case PushLoadHead(v, current) =>
          var next := Spot(current + 1, buffer.Length);
          if next == head {
            producer := PushFull;
          } else {
            producer := PushWrite(v, current, next);
          }
        case PushWrite(v, current, next) =>
          buffer[current] := Full(v);
          producer := PushAdvance(v, current, next);
        case PushAdvance(v, _, next) =>
          tail := next;
          pushed := pushed + [v];
          producer := PushDone;
        case _ =>
      }
    }

    method RunConsumerStep()
      requires InRange(Snapshot())
      modifies this, buffer
      ensures Snapshot() == ConsumerStep(old(Snapshot()))
    {
      hide Spot;
      match consumer {
        case PopLoadHead =>
          consumer := PopLoadTail(head);
        case PopLoadTail(current) =>
          consumer := if current == tail then PopEmpty else PopRead(current);
        case PopRead(current) =>
          consumer := if buffer[current].Full? then PopAdvance(current, buffer[current].value) else Fault;
        case PopAdvance(current, v) =>
          head := Spot(current + 1, buffer.Length);
          delivered := delivered + [v];
          consumer := PopDone(v);
        case AllLoadHead(out) =>
          consumer := AllLoadTail(out, head);
        case AllLoadTail(out, current) =>
          from := |delivered|;
          if current == tail {
            limit := |delivered|;
            consumer := AllDone(out, 0);
          } else {
            limit := |pushed|;
            consumer := AllMove(out, [], current, tail, Available(current, tail, buffer.Length));
          }
        case AllMove(out, taken, current, last, available) =>
          if current == last {
            head := current;
            delivered := delivered + taken;
            consumer := AllDone(out + taken, |taken|);
          } else if buffer[current].Full? {
            consumer := AllMove(out, taken + [buffer[current].value], Spot(current + 1, buffer.Length), last, available);
            buffer[current] := MovedOut;
          } else {
            consumer := Fault;
          }
        case _ =>
      }
    }

    /** The consumer runs: every consumer move of the batch. */
    method Consume(batch: seq<Move<T>>)
      requires Valid()
      modifies this, buffer
      ensures Valid() && producer == old(producer) && pushed == old(pushed) && tail == old(tail)
      ensures |old(delivered)| <= |delivered|
    {
      hide Inv, Spot, Apply;
      for k := 0 to |batch|
        invariant Valid() && producer == old(producer) && pushed == old(pushed) && tail == old(tail)
        invariant |old(delivered)| <= |delivered|
      {
        if batch[k].CallPop? || batch[k].CallPopAll? || batch[k].RunConsumer? {
          ConsumerMove(Snapshot(), batch[k]);
          Perform(batch[k]);
        }
      }
    }

    /** The producer runs: every producer move of the batch. */
    method Produce(batch: seq<Move<T>>)
      requires Valid()
      modifies this, buffer
      ensures Valid() && consumer == old(consumer) && delivered == old(delivered) && head == old(head)
      ensures from == old(from) && limit == old(limit)
      ensures old(pushed) <= pushed
    {
      hide Inv, Spot, Apply;
      for k := 0 to |batch|
        invariant Valid() && consumer == old(consumer) && delivered == old(delivered) && head == old(head)
        invariant from == old(from) && limit == old(limit)
        invariant old(pushed) <= pushed
      {
        if batch[k].CallPush? || batch[k].RunProducer? {
          ProducerMove(Snapshot(), batch[k]);
          Perform(batch[k]);
        }
      }
    }

    /** A batch of the consumer's steps, and then one step of the producer. */
    method AdvanceProducer(others: seq<seq<Move<T>>>) returns (rest: seq<seq<Move<T>>>)
      requires Valid()
      modifies this, buffer
      ensures Valid() && |old(delivered)| <= |delivered|
      ensures match old(producer)
              case PushLoadTail(v) => producer == PushLoadHead(v, tail) && pushed == old(pushed)
              case PushLoadHead(v, _) =>
                && pushed == old(pushed)
                && (producer == PushFull || (producer.PushWrite? && producer.value == v))
                && (producer == PushFull <==> Held() == buffer.Length - 1)
              case PushWrite(v, current, next) => producer == PushAdvance(v, current, next) && pushed == old(pushed)
              case PushAdvance(v, _, _) => producer == PushDone && pushed == old(pushed) + [v]
              case _ => true
    {
      hide Inv, Spot;
      rest := [];
      if others != [] {
        Consume(others[0]);
        rest := others[1..];
      }
      ghost var between := Snapshot();
      InvInRange(between);
      if between.producer.PushLoadHead? {
        PushFailsIffFull(between);
      }
      Perform(RunProducer);
    }

    /** A batch of the producer's steps, and then one step of the consumer. */
    method AdvanceConsumer(others: seq<seq<Move<T>>>) returns (rest: seq<seq<Move<T>>>)
      requires Valid()
      modifies this, buffer
      ensures Valid() && old(pushed) <= pushed
      ensures match old(consumer)
              case PopLoadHead => consumer.PopLoadTail? && delivered == old(delivered)
              case PopLoadTail(_) =>
                && delivered == old(delivered)
                && (consumer.PopEmpty? || consumer.PopRead?)
                && (consumer.PopEmpty? <==> delivered == pushed)
              case PopRead(_) => consumer.PopAdvance? && delivered == old(delivered)
              case PopAdvance(_, v) => consumer == PopDone(v) && delivered == old(delivered) + [v]
              case AllLoadHead(out) => consumer.AllLoadTail? && consumer.out == out && delivered == old(delivered)
              case AllLoadTail(out, _) =>
                && delivered == old(delivered)
                && (consumer == AllDone(out, 0) || (consumer.AllMove? && consumer.out == out && consumer.taken == []))
                && (consumer.AllDone? <==> delivered == pushed)
                && from == |delivered| && limit == |pushed|
              case AllMove(out, taken, current, last, available) =>
                && from == old(from) && limit == old(limit)
                && (if current == last then
                      && consumer == AllDone(out + taken, |taken|) && |taken| == available
                      && delivered == old(delivered) + taken
                    else
                      && consumer.AllMove? && consumer.out == out && |consumer.taken| == |taken| + 1
                      && consumer.tail == last && consumer.available == available && delivered == old(delivered))
              case _ => true
    {
      hide Inv, Spot;
      rest := [];
      if others != [] {
        Produce(others[0]);
        rest := others[1..];
      }
      ghost var between := Snapshot();
      InvInRange(between);
      ConsumerNext(between);
      Perform(RunConsumer);
    }

    /** `push`: it fails only if the ring was full when it was called, and then nothing has been delivered since. */
    method Push(value: T, others: seq<seq<Move<T>>>) returns (ok: bool)
      requires Valid() && ProducerRests(producer)
      modifies this, buffer
      ensures Valid() && ProducerRests(producer)
      ensures pushed == if ok then old(pushed) + [value] else old(pushed)
      ensures !ok ==> old(Held()) == buffer.Length - 1
    {
      hide Inv, Spot;
      Perform(CallPush(value));
      var rest := AdvanceProducer(others);
      rest := AdvanceProducer(rest);
      if producer == PushFull {
        HeldBounded(old(Snapshot()));
        return false;
      }
      rest := AdvanceProducer(rest);
      rest := AdvanceProducer(rest);
      return true;
    }

    /** `pop`: the oldest undelivered value; it fails only if there was none when it was called. */
    method Pop(others: seq<seq<Move<T>>>) returns (result: Option<T>)
      requires Valid() && ConsumerRests(consumer)
      modifies this, buffer
      ensures Valid() && ConsumerRests(consumer) && old(pushed) <= pushed
      ensures result.Some? ==>
        delivered == old(delivered) + [result.value] && delivered <= pushed
      ensures result.None? ==> delivered == old(delivered) == old(pushed)
    {
      hide Inv, Spot;
      Perform(CallPop);
      var rest := AdvanceConsumer(others);
      rest := AdvanceConsumer(rest);
      if consumer == PopEmpty {
        DeliveredPrefix(old(Snapshot()));
        return None;
      }
      rest := AdvanceConsumer(rest);
      rest := AdvanceConsumer(rest);
      DeliveredPrefix(Snapshot());
      return Some(consumer.value);
    }

    /**
      `pop_all`: appends every value pushed before its tail load and not yet delivered, in order, and returns how many;
      values pushed while it drains stay in the ring.
     */
    method PopAll(out: seq<T>, others: seq<seq<Move<T>>>) returns (all: seq<T>, count: nat)
      requires Valid() && ConsumerRests(consumer)
      modifies this, buffer
      ensures Valid() && ConsumerRests(consumer) && old(pushed) <= pushed
      ensures |old(pushed)| <= limit <= |pushed|
      ensures delivered == pushed[..limit]
      ensures all == out + pushed[|old(delivered)|..limit] && count == limit - |old(delivered)|
    {
      hide Inv, Spot;
      Perform(CallPopAll(out));
      var rest := AdvanceConsumer(others);
      rest := AdvanceConsumer(rest);
      BatchBounded(Snapshot());
      while consumer.AllMove? && consumer.head != consumer.tail
        invariant Valid() && old(pushed) <= pushed && |old(pushed)| <= limit
        invariant from == |old(delivered)|
        invariant consumer.AllMove? ==> consumer.out == out && delivered == old(delivered)
        invariant consumer.AllDone? ==> consumer == AllDone(out, 0) && delivered == old(delivered) && limit == from
        invariant consumer.AllMove? || consumer.AllDone?
        invariant consumer.AllMove? ==> |consumer.taken| <= consumer.available == limit - from
        decreases if consumer.AllMove? then consumer.available - |consumer.taken| else 0
      {
        rest := AdvanceConsumer(rest);
        BatchBounded(Snapshot());
      }
      ghost var taken := if consumer.AllMove? then consumer.taken else [];
      if consumer.AllMove? {
        rest := AdvanceConsumer(rest);
      }
      BatchResult(Snapshot(), old(delivered), taken);
      return consumer.out, consumer.count;
    }
  }

  // ---- Facts about one step ------------------------------------------------------------------------------

  lemma ConsumerMove<T>(s: State<T>, move: Move<T>)
    requires Inv(s) && (move.CallPop? || move.CallPopAll? || move.RunConsumer?)
    ensures InRange(s)
    ensures var s' := Apply(s, move);
      && s'.producer == s.producer && s'.pushed == s.pushed && s'.tail == s.tail
      && |s.delivered| <= |s'.delivered|
  {
    InvInRange(s);
    hide Inv, Spot;
  }

  lemma ProducerMove<T>(s: State<T>, move: Move<T>)
    requires Inv(s) && (move.CallPush? || move.RunProducer?)
    ensures InRange(s)
    ensures var s' := Apply(s, move);
      && s'.consumer == s.consumer && s'.delivered == s.delivered && s'.head == s.head
      && s'.from == s.from && s'.limit == s.limit
      && s.pushed <= s'.pushed
  {}

  /** The consumer never faults, and its loads decide as the counts say. */
  lemma ConsumerNext<T>(s: State<T>)
    requires Inv(s)
    ensures InRange(s)
    ensures var s' := ConsumerStep(s);
      && (s.consumer.PopRead? ==> s'.consumer.PopAdvance?)
      && (s.consumer.PopLoadTail? ==> (s'.consumer.PopEmpty? <==> s.delivered == s.pushed))
      && (s.consumer.AllLoadTail? ==> (s'.consumer.AllDone? <==> s.delivered == s.pushed))
      && (s.consumer.AllLoadTail? ==> s'.from == |s.delivered| && s'.limit == |s.pushed|)
      && (s.consumer.AllMove? && s.consumer.head != s.consumer.tail ==> s'.consumer.AllMove?)
      && (s.consumer.AllMove? && s.consumer.head == s.consumer.tail ==> |s.consumer.taken| == s.consumer.available)
  {
    InvInRange(s);
    hide Spot, Stored, ProducerOk;
    match s.consumer {
      case PopRead(_) => TakenSlotIsFull(s);
      case PopLoadTail(_) => PopFailsIffEmpty(s);
      case AllLoadTail(_, _) => PopFailsIffEmpty(s);
      case AllMove(_, _, head, tail, _) =>
        if head == tail {
          AdvanceHeadByBatch(s);
        } else {
          TakenSlotIsFull(s);
        }
      case _ =>
    }
  }

  lemma HeldBounded<T>(s: State<T>)
    requires Inv(s)
    ensures |s.pushed| - |s.delivered| <= |s.buffer| - 1
  {}

  lemma DeliveredPrefix<T>(s: State<T>)
    requires Inv(s)
    ensures s.delivered <= s.pushed
  {}

  lemma BatchBounded<T>(s: State<T>)
    requires Inv(s)
    ensures s.consumer.AllMove? ==> |s.consumer.taken| <= s.consumer.available == s.limit - s.from
  {}

  lemma BatchResult<T>(s: State<T>, before: seq<T>, taken: seq<T>)
    requires Inv(s) && s.delivered == before + taken && |s.delivered| == s.limit
    ensures |before| <= s.limit <= |s.pushed| && s.delivered == s.pushed[..s.limit]
    ensures taken == s.pushed[|before|..s.limit]
  {}
}
