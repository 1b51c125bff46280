/**
  The bounded multi-producer multi-consumer ring, as interleaved atomic steps of any number of threads: one step per
  atomic load, compare-and-swap, store or access to a cell's data. Atomics are sequentially consistent and positions
  are unbounded. A weak compare-and-swap may fail spuriously.
 */
module MpmcProtocol {
  import opened Bitmask

  type ThreadId = nat

  datatype Cell<T> = Cell(sequence: nat, data: T)

  /** Where a thread stands inside `push` or `pop`. */
  datatype Thread<T> =
    | Idle
    | PushLoad(value: T)                // about to load the enqueue position
    | PushCheck(value: T, pos: nat)     // about to load the cell's sequence
    | PushClaim(value: T, pos: nat)     // about to compare-and-swap the enqueue position
    | PushWrite(value: T, pos: nat)     // about to write the cell's data
    | PushPublish(value: T, pos: nat)   // about to store the cell's sequence
    | PushDone(pos: nat)                // returned true
    | PushFailed                        // returned false
    | PopLoad
    | PopCheck(pos: nat)
    | PopClaim(pos: nat)
    | PopRead(pos: nat)                 // about to read the cell's data
    | PopRelease(value: T, pos: nat)    // about to store the cell's sequence
    | PopDone(value: T, pos: nat)       // returned true with this value
    | PopFailed

  predicate AtRest<T>(th: Thread<T>) {
    th.Idle? || th.PushDone? || th.PushFailed? || th.PopDone? || th.PopFailed?
  }

  /** Writing, publishing, reading or releasing the data of the cell claimed for position p. */
  predicate Writes<T>(th: Thread<T>, p: nat) {
    (th.PushWrite? || th.PushPublish?) && th.pos == p
  }

  predicate Reads<T>(th: Thread<T>, p: nat) {
    (th.PopRead? || th.PopRelease?) && th.pos == p
  }

  /**
    The shared memory, the threads, and a history the code does not keep: the value and the thread of every claimed
    position on each side, the values handed out, and for every cell the position of its current lap.
   */
  datatype State<T> = State(
    cells: seq<Cell<T>>, enqueuePos: nat, dequeuePos: nat, threads: map<ThreadId, Thread<T>>,
    claimed: seq<T>, producers: seq<ThreadId>, consumers: seq<ThreadId>, delivered: map<nat, T>, laps: seq<nat>)
  {
    function Slot(pos: nat): nat
      requires |cells| > 0
    {
      And(pos, |cells| - 1)
    }

    function At(t: ThreadId): Thread<T> {
      if t in threads then threads[t] else Idle
    }

    /** The queue the protocol implements: claimed pushes whose pop is not yet claimed. */
    function Contents(): seq<T>
      requires dequeuePos <= enqueuePos <= |claimed|
    {
      claimed[dequeuePos..enqueuePos]
    }
  }

  /** A freshly constructed queue of any power-of-two capacity: cell i is ready for position i. */
  ghost predicate Init<T>(s: State<T>) {
    && IsPower2(|s.cells|)
    && (forall c :: 0 <= c < |s.cells| ==> s.cells[c].sequence == c)
    && s.enqueuePos == s.dequeuePos == 0 && s.threads == map[]
    && s.claimed == [] && s.producers == [] && s.consumers == [] && s.delivered == map[]
    && |s.laps| == |s.cells| && (forall c :: 0 <= c < |s.cells| ==> s.laps[c] == c)
  }

  // ---- The ring ------------------------------------------------------------------------------------------

  ghost predicate RingOk<T>(s: State<T>) {
    IsPower2(|s.cells|) && |s.laps| == |s.cells|
  }

  lemma SlotInRange<T>(s: State<T>, pos: nat)
    requires RingOk(s)
    ensures s.Slot(pos) < |s.cells|
  {
    MaskIsRemainder(pos, |s.cells|);
  }

  /** Two positions with one slot are a whole number of laps apart. */
  lemma LapsApart<T>(s: State<T>, p: nat, q: nat)
    requires RingOk(s) && s.Slot(p) == s.Slot(q)
    ensures p == q || p + |s.cells| <= q || q + |s.cells| <= p
  {
    MaskIsRemainder(p, |s.cells|);
    MaskIsRemainder(q, |s.cells|);
    if p < q {
      SameSlot(|s.cells|, p, q);
    } else if q < p {
      SameSlot(|s.cells|, q, p);
    }
  }

  lemma NextLapSlot<T>(s: State<T>, p: nat)
    requires RingOk(s)
    ensures s.Slot(p + |s.cells|) == s.Slot(p)
  {
    MaskIsRemainder(p, |s.cells|);
    MaskIsRemainder(p + |s.cells|, |s.cells|);
    NextLap(|s.cells|, p);
  }

  // ---- Steps ---------------------------------------------------------------------------------------------

  datatype Move<T> =
    | CallPush(t: ThreadId, value: T)
    | CallPop(t: ThreadId)
    | Run(t: ThreadId, spurious: bool)

  function Goto<T>(s: State<T>, t: ThreadId, th: Thread<T>): State<T> {
    s.(threads := s.threads[t := th])
  }

  /** The next atomic step of thread t. */
  ghost function Step<T>(s: State<T>, t: ThreadId, spurious: bool): State<T>
    requires RingOk(s)
  {
    match s.At(t)
    case PushLoad(v) => Goto(s, t, PushCheck(v, s.enqueuePos))
    case PushCheck(v, pos) =>
      SlotInRange(s, pos);
      var seen := s.cells[s.Slot(pos)].sequence;
      if seen == pos then Goto(s, t, PushClaim(v, pos))
      else if seen < pos then Goto(s, t, PushFailed)
      else Goto(s, t, PushLoad(v))
    case PushClaim(v, pos) =>
      if s.enqueuePos == pos && !spurious then
        Goto(s.(enqueuePos := pos + 1, claimed := s.claimed + [v], producers := s.producers + [t]), t, PushWrite(v, pos))
      else Goto(s, t, PushCheck(v, s.enqueuePos))
    case PushWrite(v, pos) =>
      SlotInRange(s, pos);
      var c := s.Slot(pos);
      Goto(s.(cells := s.cells[c := s.cells[c].(data := v)]), t, PushPublish(v, pos))
    case PushPublish(v, pos) =>
      SlotInRange(s, pos);
      var c := s.Slot(pos);
      Goto(s.(cells := s.cells[c := s.cells[c].(sequence := pos + 1)]), t, PushDone(pos))
    case PopLoad => Goto(s, t, PopCheck(s.dequeuePos))
    case PopCheck(pos) =>
      SlotInRange(s, pos);
      var seen := s.cells[s.Slot(pos)].sequence;
      if seen == pos + 1 then Goto(s, t, PopClaim(pos))
      else if seen < pos + 1 then Goto(s, t, PopFailed)
      else Goto(s, t, PopLoad)
    case PopClaim(pos) =>
      if s.dequeuePos == pos && !spurious then
        Goto(s.(dequeuePos := pos + 1, consumers := s.consumers + [t]), t, PopRead(pos))
      else Goto(s, t, PopCheck(s.dequeuePos))
    case PopRead(pos) =>
      SlotInRange(s, pos);
      var v := s.cells[s.Slot(pos)].data;
      Goto(s.(delivered := s.delivered[pos := v]), t, PopRelease(v, pos))
    case PopRelease(v, pos) =>
      SlotInRange(s, pos);
      var c := s.Slot(pos);
      var free := pos + (|s.cells| - 1) + 1;
      Goto(s.(cells := s.cells[c := s.cells[c].(sequence := free)], laps := s.laps[c := free]), t, PopDone(v, pos))
    case _ => s
  }

  ghost function Apply<T>(s: State<T>, move: Move<T>): State<T>
    requires RingOk(s)
  {
    match move
    case CallPush(t, v) => if AtRest(s.At(t)) then Goto(s, t, PushLoad(v)) else s
    case CallPop(t) => if AtRest(s.At(t)) then Goto(s, t, PopLoad) else s
    case Run(t, spurious) => Step(s, t, spurious)
  }

  // ---- The invariant -------------------------------------------------------------------------------------

  /** The lap invariant of cell c: its sequence is p or p + 1 for the one position p whose lap it is in. */
  ghost predicate CellOk<T>(s: State<T>, c: nat)
    requires c < |s.cells| == |s.laps|
    requires |s.producers| == |s.claimed| == s.enqueuePos && |s.consumers| == s.dequeuePos
  {
    var p, sequence := s.laps[c], s.cells[c].sequence;
    && s.Slot(p) == c
    && s.enqueuePos <= p + |s.cells| && p < s.dequeuePos + |s.cells|
    && (sequence == p || sequence == p + 1)
    && (sequence == p ==> s.dequeuePos <= p && (p < s.enqueuePos ==> Writes(s.At(s.producers[p]), p)))
    && (sequence == p + 1 ==>
          && p < s.enqueuePos && s.cells[c].data == s.claimed[p]
          && (p < s.dequeuePos ==> Reads(s.At(s.consumers[p]), p)))
  }

  /** The cell of position p is in p's lap with this sequence. */
  predicate Holds<T>(s: State<T>, p: nat, sequence: nat)
    requires |s.cells| > 0 && |s.laps| == |s.cells|
  {
    s.Slot(p) < |s.cells| && s.laps[s.Slot(p)] == p && s.cells[s.Slot(p)].sequence == sequence
  }

  ghost predicate ThreadOk<T>(s: State<T>, t: ThreadId)
    requires |s.cells| > 0 && |s.laps| == |s.cells|
    requires |s.producers| == |s.claimed| == s.enqueuePos && |s.consumers| == s.dequeuePos
    requires s.dequeuePos <= s.enqueuePos
  {
    match s.At(t)
    case PushCheck(_, pos) => pos <= s.enqueuePos
    case PushClaim(_, pos) => pos <= s.enqueuePos && (pos == s.enqueuePos ==> Holds(s, pos, pos))
    case PushWrite(v, pos) => pos < s.enqueuePos && s.producers[pos] == t && s.claimed[pos] == v && Holds(s, pos, pos)
    case PushPublish(v, pos) =>
      && pos < s.enqueuePos && s.producers[pos] == t && s.claimed[pos] == v && Holds(s, pos, pos)
      && s.cells[s.Slot(pos)].data == v
    case PushDone(pos) => pos < s.enqueuePos && s.producers[pos] == t
    case PopCheck(pos) => pos <= s.dequeuePos
    case PopClaim(pos) => pos <= s.dequeuePos && (pos == s.dequeuePos ==> Holds(s, pos, pos + 1))
    case PopRead(pos) => pos < s.dequeuePos && s.consumers[pos] == t && Holds(s, pos, pos + 1)
    case PopRelease(v, pos) =>
      pos < s.dequeuePos && s.consumers[pos] == t && Holds(s, pos, pos + 1) && v == s.claimed[pos]
    case PopDone(v, pos) => pos < s.dequeuePos && s.consumers[pos] == t && v == s.claimed[pos]
    case _ => true
  }

  ghost predicate Sizes<T>(s: State<T>) {
    && RingOk(s) && |s.cells| >= 2
    && |s.producers| == |s.claimed| == s.enqueuePos && |s.consumers| == s.dequeuePos
    && s.dequeuePos <= s.enqueuePos <= s.dequeuePos + |s.cells|
  }

  ghost predicate Inv<T>(s: State<T>) {
    && Sizes(s)
    && (forall c: nat :: c < |s.cells| ==> CellOk(s, c))
    && (forall t: ThreadId :: ThreadOk(s, t))
    && (forall p: nat :: p in s.delivered ==> p < s.dequeuePos && s.delivered[p] == s.claimed[p])
    && (forall p: nat :: p < s.dequeuePos && p !in s.delivered ==> s.At(s.consumers[p]) == PopRead(p))
  }

  lemma FirstLapSlot<T>(s: State<T>, c: nat)
    requires RingOk(s) && c < |s.cells|
    ensures s.Slot(c) == c
  {
    MaskIsRemainder(c, |s.cells|);
    RemainderUnique(c, |s.cells|, 0, c);
  }

  lemma InitInv<T>(s: State<T>)
    requires Init(s) && |s.cells| >= 2
    ensures Inv(s)
  {
    hide And, IsPower2;
    forall c: nat | c < |s.cells| ensures CellOk(s, c) {
      FirstLapSlot(s, c);
    }
  }

  /** The lap of the cell a position maps to, as soon as the sequence shows it. */
  lemma SequenceShowsLap<T>(s: State<T>, pos: nat)
    requires Inv(s)
    ensures s.Slot(pos) < |s.cells|
    ensures s.cells[s.Slot(pos)].sequence == pos ==> Holds(s, pos, pos)
    ensures s.cells[s.Slot(pos)].sequence == pos + 1 ==> Holds(s, pos, pos + 1)
    ensures var p := s.laps[s.Slot(pos)]; p == pos || p + |s.cells| <= pos || pos + |s.cells| <= p
  {
    SlotInRange(s, pos);
    var c := s.Slot(pos);
    assert CellOk(s, c);
    LapsApart(s, s.laps[c], pos);
  }

  // ---- Every step keeps the invariant --------------------------------------------------------------------

  /** Steps that only move thread t, which neither leaves nor enters a data-access phase. */
  lemma LocalStep<T>(s: State<T>, t: ThreadId, th: Thread<T>)
    requires Inv(s)
    requires forall p: nat :: !Writes(s.At(t), p) && !Reads(s.At(t), p)
    requires ThreadOk(Goto(s, t, th), t)
    ensures Inv(Goto(s, t, th))
  {
    hide And, IsPower2;
    assert s.At(t).PopRead? ==> Reads(s.At(t), s.At(t).pos);
    var s' := Goto(s, t, th);
    forall c: nat | c < |s.cells| ensures CellOk(s', c) {
      assert CellOk(s, c);
    }
    forall u: ThreadId ensures ThreadOk(s', u) {
      assert ThreadOk(s, u);
    }
  }

  lemma ClaimPush<T>(s: State<T>, t: ThreadId, v: T, pos: nat)
    requires Inv(s) && s.At(t) == PushClaim(v, pos) && s.enqueuePos == pos
    ensures Inv(Step(s, t, false))
  {
    hide And, IsPower2;
    var s' := Step(s, t, false);
    assert ThreadOk(s, t);
    var home := s.Slot(pos);
    assert CellOk(s, home);
    forall c: nat | c < |s.cells| ensures CellOk(s', c) {
      assert CellOk(s, c);
      if c != home && s.laps[c] + |s.cells| == pos {
        NextLapSlot(s, s.laps[c]);
      }
    }
    forall u: ThreadId ensures ThreadOk(s', u) {
      assert ThreadOk(s, u);
    }
  }

  lemma WriteCellCells<T>(s: State<T>, t: ThreadId, v: T, pos: nat, spurious: bool)
    requires Inv(s) && s.At(t) == PushWrite(v, pos)
    ensures var s' := Step(s, t, spurious);
      Sizes(s') && forall c: nat :: c < |s'.cells| ==> CellOk(s', c)
  {
    hide And, IsPower2;
    var s' := Step(s, t, spurious);
    assert ThreadOk(s, t);
    forall c: nat | c < |s.cells| ensures CellOk(s', c) {
      assert CellOk(s, c);
    }
  }

  lemma WriteCellThreads<T>(s: State<T>, t: ThreadId, v: T, pos: nat, spurious: bool)
    requires Inv(s) && s.At(t) == PushWrite(v, pos)
    ensures var s' := Step(s, t, spurious);
      Sizes(s') && forall u: ThreadId :: ThreadOk(s', u)
  {
    hide And, IsPower2;
    var s' := Step(s, t, spurious);
    assert ThreadOk(s, t);
    forall u: ThreadId ensures ThreadOk(s', u) {
      assert ThreadOk(s, u);
    }
  }

  lemma WriteCell<T>(s: State<T>, t: ThreadId, v: T, pos: nat, spurious: bool)
    requires Inv(s) && s.At(t) == PushWrite(v, pos)
    ensures Inv(Step(s, t, spurious))
  {
    WriteCellCells(s, t, v, pos, spurious);
    WriteCellThreads(s, t, v, pos, spurious);
    assert ThreadOk(s, t);
    hide And, IsPower2, CellOk, ThreadOk;
  }

  lemma PublishCellCells<T>(s: State<T>, t: ThreadId, v: T, pos: nat, spurious: bool)
    requires Inv(s) && s.At(t) == PushPublish(v, pos)
    ensures var s' := Step(s, t, spurious);
      Sizes(s') && forall c: nat :: c < |s'.cells| ==> CellOk(s', c)
  {
    hide And, IsPower2;
    var s' := Step(s, t, spurious);
    assert ThreadOk(s, t);
    assert CellOk(s, s.Slot(pos));
    forall c: nat | c < |s.cells| ensures CellOk(s', c) {
      assert CellOk(s, c);
    }
  }

  lemma PublishCellThreads<T>(s: State<T>, t: ThreadId, v: T, pos: nat, spurious: bool)
    requires Inv(s) && s.At(t) == PushPublish(v, pos)
    ensures var s' := Step(s, t, spurious);
      Sizes(s') && forall u: ThreadId :: ThreadOk(s', u)
  {
    hide And, IsPower2;
    var s' := Step(s, t, spurious);
    assert ThreadOk(s, t);
    assert CellOk(s, s.Slot(pos));
    forall u: ThreadId ensures ThreadOk(s', u) {
      assert ThreadOk(s, u);
    }
  }

  lemma PublishCell<T>(s: State<T>, t: ThreadId, v: T, pos: nat, spurious: bool)
    requires Inv(s) && s.At(t) == PushPublish(v, pos)
    ensures Inv(Step(s, t, spurious))
  {
    PublishCellCells(s, t, v, pos, spurious);
    PublishCellThreads(s, t, v, pos, spurious);
    assert ThreadOk(s, t);
    hide And, IsPower2, CellOk, ThreadOk;
  }

  lemma ClaimPop<T>(s: State<T>, t: ThreadId, pos: nat)
    requires Inv(s) && s.At(t) == PopClaim(pos) && s.dequeuePos == pos
    ensures Inv(Step(s, t, false))
  {
    hide And, IsPower2;
    var s' := Step(s, t, false);
    assert ThreadOk(s, t);
    var home := s.Slot(pos);
    assert CellOk(s, home);
    forall c: nat | c < |s.cells| ensures CellOk(s', c) {
      assert CellOk(s, c);
    }
    forall u: ThreadId ensures ThreadOk(s', u) {
      assert ThreadOk(s, u);
    }
  }

  lemma ReadCellCells<T>(s: State<T>, t: ThreadId, pos: nat, spurious: bool)
    requires Inv(s) && s.At(t) == PopRead(pos)
    ensures var s' := Step(s, t, spurious);
      Sizes(s') && forall c: nat :: c < |s'.cells| ==> CellOk(s', c)
  {
    hide And, IsPower2;
    var s' := Step(s, t, spurious);
    assert ThreadOk(s, t);
    assert CellOk(s, s.Slot(pos));
    forall c: nat | c < |s.cells| ensures CellOk(s', c) {
      assert CellOk(s, c);
    }
  }

  lemma ReadCellThreads<T>(s: State<T>, t: ThreadId, pos: nat, spurious: bool)
    requires Inv(s) && s.At(t) == PopRead(pos)
    ensures var s' := Step(s, t, spurious);
      Sizes(s') && forall u: ThreadId :: ThreadOk(s', u)
  {
    hide And, IsPower2;
    var s' := Step(s, t, spurious);
    assert ThreadOk(s, t);
    assert CellOk(s, s.Slot(pos));
    forall u: ThreadId ensures ThreadOk(s', u) {
      assert ThreadOk(s, u);
    }
  }

  lemma ReadCell<T>(s: State<T>, t: ThreadId, pos: nat, spurious: bool)
    requires Inv(s) && s.At(t) == PopRead(pos)
    ensures Inv(Step(s, t, spurious))
  {
    ReadCellCells(s, t, pos, spurious);
    ReadCellThreads(s, t, pos, spurious);
    assert ThreadOk(s, t);
    assert CellOk(s, s.Slot(pos));
    hide And, IsPower2, CellOk, ThreadOk;
  }

  lemma ReleaseCellCells<T>(s: State<T>, t: ThreadId, v: T, pos: nat, spurious: bool)
    requires Inv(s) && s.At(t) == PopRelease(v, pos)
    ensures var s' := Step(s, t, spurious);
      Sizes(s') && forall c: nat :: c < |s'.cells| ==> CellOk(s', c)
  {
    hide And, IsPower2;
    var s' := Step(s, t, spurious);
    assert ThreadOk(s, t);
    assert CellOk(s, s.Slot(pos));
    NextLapSlot(s, pos);
    forall c: nat | c < |s.cells| ensures CellOk(s', c) {
      assert CellOk(s, c);
    }
  }

  lemma ReleaseCellThreads<T>(s: State<T>, t: ThreadId, v: T, pos: nat, spurious: bool)
    requires Inv(s) && s.At(t) == PopRelease(v, pos)
    ensures var s' := Step(s, t, spurious);
      Sizes(s') && forall u: ThreadId :: ThreadOk(s', u)
  {
    hide And, IsPower2;
    var s' := Step(s, t, spurious);
    assert ThreadOk(s, t);
    assert CellOk(s, s.Slot(pos));
    NextLapSlot(s, pos);
    forall u: ThreadId ensures ThreadOk(s', u) {
      assert ThreadOk(s, u);
    }
  }

  lemma ReleaseCell<T>(s: State<T>, t: ThreadId, v: T, pos: nat, spurious: bool)
    requires Inv(s) && s.At(t) == PopRelease(v, pos)
    ensures Inv(Step(s, t, spurious))
  {
    ReleaseCellCells(s, t, v, pos, spurious);
    ReleaseCellThreads(s, t, v, pos, spurious);
    assert ThreadOk(s, t);
    hide And, IsPower2, CellOk, ThreadOk;
  }

  lemma StepKeepsInv<T>(s: State<T>, t: ThreadId, spurious: bool)
    requires Inv(s)
    ensures Inv(Step(s, t, spurious))
  {
    hide And, IsPower2;
    assert ThreadOk(s, t);
    match s.At(t) {
      case PushLoad(v) => LocalStep(s, t, PushCheck(v, s.enqueuePos));
      case PushCheck(v, pos) =>
        SequenceShowsLap(s, pos);
        LocalStep(s, t, Step(s, t, spurious).At(t));
      case PushClaim(v, pos) =>
        if s.enqueuePos == pos && !spurious {
          ClaimPush(s, t, v, pos);
        } else {
          LocalStep(s, t, PushCheck(v, s.enqueuePos));
        }
      case PushWrite(v, pos) => WriteCell(s, t, v, pos, spurious);
      case PushPublish(v, pos) => PublishCell(s, t, v, pos, spurious);
      case PopLoad => LocalStep(s, t, PopCheck(s.dequeuePos));
      case PopCheck(pos) =>
        SequenceShowsLap(s, pos);
        LocalStep(s, t, Step(s, t, spurious).At(t));
      case PopClaim(pos) =>
        if s.dequeuePos == pos && !spurious {
          ClaimPop(s, t, pos);
        } else {
          LocalStep(s, t, PopCheck(s.dequeuePos));
        }
      case PopRead(pos) => ReadCell(s, t, pos, spurious);
      case PopRelease(v, pos) => ReleaseCell(s, t, v, pos, spurious);
      case _ =>
    }
  }

  lemma ApplyKeepsInv<T>(s: State<T>, move: Move<T>)
    requires Inv(s)
    ensures Inv(Apply(s, move))
  {
    match move {
      case CallPush(t, v) =>
        if AtRest(s.At(t)) {
          LocalStep(s, t, PushLoad(v));
        }
      case CallPop(t) =>
        if AtRest(s.At(t)) {
          LocalStep(s, t, PopLoad);
        }
      case Run(t, spurious) => StepKeepsInv(s, t, spurious);
    }
  }

  // ---- Runs ----------------------------------------------------------------------------------------------

  lemma ApplyKeepsRing<T>(s: State<T>, move: Move<T>)
    requires RingOk(s)
    ensures RingOk(Apply(s, move)) && |Apply(s, move).cells| == |s.cells|
  {
    match move {
      case CallPush(_, _) =>
      case CallPop(_) =>
      case Run(t, spurious) =>
        match s.At(t) {
          case PushWrite(_, pos) => SlotInRange(s, pos);
          case PushPublish(_, pos) => SlotInRange(s, pos);
          case PopRelease(_, pos) => SlotInRange(s, pos);
          case _ =>
        }
    }
  }

  /** Any interleaving: a finite sequence of moves of any threads. */
  ghost function Execute<T>(s: State<T>, moves: seq<Move<T>>): (r: State<T>)
    requires RingOk(s)
    ensures RingOk(r) && |r.cells| == |s.cells|
    decreases |moves|
  {
    if |moves| == 0 then s
    else
      ApplyKeepsRing(s, moves[0]);
      Execute(Apply(s, moves[0]), moves[1..])
  }

  lemma {:induction false} ExecuteKeepsInv<T>(s: State<T>, moves: seq<Move<T>>)
    requires Inv(s)
    ensures Inv(Execute(s, moves))
    decreases |moves|
  {
    if moves != [] {
      ApplyKeepsInv(s, moves[0]);
      ExecuteKeepsInv(Apply(s, moves[0]), moves[1..]);
    }
  }

  /** What has been claimed stays claimed, by the same thread and with the same value. */
  ghost predicate Extends<T>(s: State<T>, s': State<T>) {
    && s.claimed <= s'.claimed && s.producers <= s'.producers && s.consumers <= s'.consumers
    && s.delivered.Keys <= s'.delivered.Keys
  }

  lemma StepExtends<T>(s: State<T>, t: ThreadId, spurious: bool)
    requires Inv(s)
    ensures Extends(s, Step(s, t, spurious))
  {
    hide And;
    var s' := Step(s, t, spurious);
    assert s.claimed <= s'.claimed && s.producers <= s'.producers by {
      if s'.claimed != s.claimed {
        assert s'.claimed[..|s.claimed|] == s.claimed;
        assert s'.producers[..|s.producers|] == s.producers;
      }
    }
    assert s.consumers <= s'.consumers by {
      if s'.consumers != s.consumers {
        assert s'.consumers[..|s.consumers|] == s.consumers;
      }
    }
  }

  lemma {:induction false} ExecuteExtends<T>(s: State<T>, moves: seq<Move<T>>)
    requires Inv(s)
    ensures Extends(s, Execute(s, moves))
    decreases |moves|
  {
    if moves != [] {
      match moves[0] {
        case CallPush(_, _) =>
        case CallPop(_) =>
        case Run(t, spurious) => StepExtends(s, t, spurious);
      }
      assert Extends(s, Apply(s, moves[0]));
      ApplyKeepsInv(s, moves[0]);
      hide Apply;
      ExecuteExtends(Apply(s, moves[0]), moves[1..]);
    }
  }

  /** How many positions thread t has claimed on one side. */
  function Claims(ids: seq<ThreadId>, t: ThreadId): nat {
    if ids == [] then 0 else Claims(ids[..|ids| - 1], t) + (if ids[|ids| - 1] == t then 1 else 0)
  }

  lemma ClaimsPush(ids: seq<ThreadId>, u: ThreadId, t: ThreadId)
    ensures Claims(ids + [u], t) == Claims(ids, t) + (if u == t then 1 else 0)
  {
    assert (ids + [u])[..|ids|] == ids;
  }

  /** A thread's claims grow by its own successful compare-and-swaps and by nothing else. */
  lemma StepClaims<T>(s: State<T>, u: ThreadId, spurious: bool, t: ThreadId)
    requires Inv(s)
    ensures var s' := Step(s, u, spurious);
      && Claims(s'.producers, t) == Claims(s.producers, t)
           + (if u == t && s.At(t).PushClaim? && s'.At(t).PushWrite? then 1 else 0)
      && Claims(s'.consumers, t) == Claims(s.consumers, t)
           + (if u == t && s.At(t).PopClaim? && s'.At(t).PopRead? then 1 else 0)
  {
    ClaimsPush(s.producers, u, t);
    ClaimsPush(s.consumers, u, t);
    hide And, IsPower2, CellOk, ThreadOk, Claims;
  }

  /** What a thread has been told about the position it claimed. */
  ghost predicate Told<T>(s: State<T>, t: ThreadId) {
    match s.At(t)
    case PushDone(pos) => pos < |s.producers| && s.producers[pos] == t
    case PopDone(v, pos) => pos < |s.consumers| && s.consumers[pos] == t && pos < |s.claimed| && v == s.claimed[pos]
    case _ => true
  }

  /**
    Safety over every run of a fresh queue: never more than the capacity between the two positions, every claimed
    position has one thread on each side, and every value handed out for a position is the value its producer pushed.
   */
  lemma EveryRun<T>(start: State<T>, moves: seq<Move<T>>)
    requires Init(start) && |start.cells| >= 2
    ensures var s := Execute(start, moves);
      && s.dequeuePos <= s.enqueuePos <= s.dequeuePos + |start.cells|
      && |s.claimed| == |s.producers| == s.enqueuePos && |s.consumers| == s.dequeuePos
      && (forall p :: p in s.delivered ==> p < s.dequeuePos && s.delivered[p] == s.claimed[p])
      && (forall t: ThreadId :: Told(s, t))
  {
    InitInv(start);
    ExecuteKeepsInv(start, moves);
    var s := Execute(start, moves);
    hide CellOk, Execute;
    forall t: ThreadId ensures Told(s, t) {
      assert ThreadOk(s, t);
    }
  }

  /** A complete push by one thread, with nobody else moving. */
  ghost function OnePush<T>(t: ThreadId, v: T): seq<Move<T>> {
    [CallPush(t, v), Run(t, false), Run(t, false), Run(t, false), Run(t, false), Run(t, false)]
  }

  lemma Follow<T>(s: State<T>, moves: seq<Move<T>>) returns (r: State<T>)
    requires RingOk(s) && moves != []
    ensures RingOk(r) && |r.cells| == |s.cells| && r == Apply(s, moves[0])
    ensures Execute(s, moves) == Execute(r, moves[1..])
  {
    ApplyKeepsRing(s, moves[0]);
    r := Apply(s, moves[0]);
  }

  /** The state that such a push leaves behind. */
  ghost function AfterPush<T>(s: State<T>, t: ThreadId, v: T): (r: State<T>)
    requires RingOk(s)
    ensures RingOk(r) && |r.cells| == |s.cells|
  {
    var e := s.enqueuePos;
    SlotInRange(s, e);
    State(s.cells[s.Slot(e) := Cell(e + 1, v)], e + 1, s.dequeuePos, s.threads[t := PushDone(e)],
          s.claimed + [v], s.producers + [t], s.consumers, s.delivered, s.laps)
  }

  /** Up to and with the claim. */
  lemma SoloClaim<T>(s: State<T>, t: ThreadId, v: T, rest: seq<Move<T>>) returns (r: State<T>)
    requires RingOk(s) && AtRest(s.At(t))
    requires s.Slot(s.enqueuePos) < |s.cells| && s.cells[s.Slot(s.enqueuePos)].sequence == s.enqueuePos
    ensures r == s.(enqueuePos := s.enqueuePos + 1, claimed := s.claimed + [v], producers := s.producers + [t],
                    threads := s.threads[t := PushWrite(v, s.enqueuePos)])
    ensures Execute(s, [CallPush(t, v), Run(t, false), Run(t, false), Run(t, false)] + rest) == Execute(r, rest)
  {
    hide And, IsPower2, Execute;
    var moves := [CallPush(t, v), Run(t, false), Run(t, false), Run(t, false)] + rest;
    r := Follow(s, moves);
    r := Follow(r, moves[1..]);
    r := Follow(r, moves[2..]);
    r := Follow(r, moves[3..]);
    assert moves[4..] == rest;
  }

  lemma SoloPush<T>(s: State<T>, t: ThreadId, v: T, rest: seq<Move<T>>)
    requires RingOk(s) && AtRest(s.At(t))
    requires s.Slot(s.enqueuePos) < |s.cells| && s.cells[s.Slot(s.enqueuePos)].sequence == s.enqueuePos
    ensures Execute(s, OnePush(t, v) + rest) == Execute(AfterPush(s, t, v), rest)
  {
    hide And, IsPower2, Execute;
    var moves := [Run(t, false), Run(t, false)] + rest;
    assert OnePush(t, v) + rest == [CallPush(t, v), Run(t, false), Run(t, false), Run(t, false)] + moves;
    var claimed := SoloClaim(s, t, v, moves);
    var written := Follow(claimed, moves);
    var done := Follow(written, moves[1..]);
    assert moves[1..][1..] == rest;
    assert done.cells == AfterPush(s, t, v).cells && done.threads == AfterPush(s, t, v).threads;
  }

  /**
    With a single cell, "published" and "free for the next lap" are the same number: the second of two pushes in a row
    overwrites the value of the first, which nobody has popped.
   */
  lemma SingleCellOverwrites<T>(start: State<T>, v: T, w: T)
    requires Init(start) && |start.cells| == 1
    ensures var s := Execute(start, OnePush(0, v) + OnePush(0, w));
      && s.At(0) == PushDone(1) && s.claimed == [v, w]
      && s.enqueuePos == 2 && s.dequeuePos == 0 && s.delivered == map[]
      && |s.cells| == 1 && s.cells[0].data == w
  {
    AndZero(0);
    AndZero(1);
    hide And, IsPower2, Execute;
    SoloPush(start, 0, v, OnePush(0, w));
    var s := AfterPush(start, 0, v);
    assert OnePush(0, w) + [] == OnePush(0, w);
    SoloPush(s, 0, w, []);
    ExecuteNothing(AfterPush(s, 0, w));
  }

  lemma ExecuteNothing<T>(s: State<T>)
    requires RingOk(s)
    ensures Execute(s, []) == s
  {}

  /** The occupancy bound holds over all runs exactly for capacities of at least two. */
  lemma SafeIffTwoCells<T>(start: State<T>)
    requires Init(start)
    ensures |start.cells| >= 2 <==>
      forall moves :: var s := Execute(start, moves); s.enqueuePos <= s.dequeuePos + |start.cells|
  {
    hide And, Execute, Step;
    if |start.cells| >= 2 {
      forall moves ensures var s := Execute(start, moves); s.enqueuePos <= s.dequeuePos + |start.cells| {
        EveryRun(start, moves);
      }
    } else {
      var v := start.cells[0].data;
      SingleCellOverwrites(start, v, v);
      var moves := OnePush(0, v) + OnePush(0, v);
      assert Execute(start, moves).enqueuePos == 2;
    }
  }

  // ---- No two threads in one cell ------------------------------------------------------------------------

  /** The thread is in the phase where it touches the data of cell c. */
  predicate InCell<T>(s: State<T>, t: ThreadId, c: nat)
    requires |s.cells| > 0
  {
    var th := s.At(t);
    (th.PushWrite? || th.PushPublish? || th.PopRead? || th.PopRelease?) && s.Slot(th.pos) == c
  }

  lemma CellsExclusive<T>(s: State<T>, t: ThreadId, u: ThreadId, c: nat)
    requires Inv(s) && InCell(s, t, c) && InCell(s, u, c)
    ensures t == u
  {
    hide CellOk, And;
    assert ThreadOk(s, t) && ThreadOk(s, u);
  }

  // ---- Refinement of a bounded FIFO ----------------------------------------------------------------------

  /**
    Every step leaves the queue alone, except a successful claim: a push claim appends its value to a queue that is not
    full, and a pop claim removes the head, which is the value that this thread will return.
   */
  lemma StepRefinesFifo<T>(s: State<T>, t: ThreadId, spurious: bool)
    requires Inv(s)
    ensures Inv(Step(s, t, spurious))
    ensures var s' := Step(s, t, spurious); var q, q' := s.Contents(), s'.Contents();
      if s.At(t).PushClaim? && s'.At(t).PushWrite? then
        |q| < |s.cells| && q' == q + [s.At(t).value]
      else if s.At(t).PopClaim? && s'.At(t).PopRead? then
        |q| > 0 && q' == q[1..] && s'.claimed[s'.At(t).pos] == q[0]
      else q' == q
  {
    StepKeepsInv(s, t, spurious);
    assert ThreadOk(s, t);
    hide And;
    if s.At(t).PushClaim? || s.At(t).PopClaim? {
      if s.Slot(s.At(t).pos) < |s.cells| {
        assert CellOk(s, s.Slot(s.At(t).pos));
      }
    }
  }

  // ---- What a false result means -------------------------------------------------------------------------

  /** Position p has been pushed into, popped from, and its cell handed to the next lap. */
  ghost predicate Released<T>(s: State<T>, p: nat)
    requires Sizes(s)
  {
    SlotInRange(s, p);
    s.laps[s.Slot(p)] > p
  }

  /** The value pushed for position p is in its cell, or was there. */
  ghost predicate Published<T>(s: State<T>, p: nat)
    requires Sizes(s)
  {
    SlotInRange(s, p);
    Released(s, p) || Holds(s, p, p + 1)
  }

  /** The cell of the next position to push still belongs to the lap before. */
  ghost predicate NoRoom<T>(s: State<T>)
    requires Sizes(s)
  {
    s.enqueuePos >= |s.cells| && !Released(s, s.enqueuePos - |s.cells|)
  }

  /** Nothing has been published for the next position to pop. */
  ghost predicate NothingReady<T>(s: State<T>)
    requires Sizes(s)
  {
    !Published(s, s.dequeuePos)
  }

  /** At its sequence load, a push fails exactly if its position is the next one and one lap earlier is unreleased. */
  lemma PushFailsIff<T>(s: State<T>, t: ThreadId, spurious: bool)
    requires Inv(s) && s.At(t).PushCheck?
    ensures Step(s, t, spurious).At(t).PushFailed? <==> s.At(t).pos == s.enqueuePos && NoRoom(s)
  {
    var pos := s.At(t).pos;
    assert ThreadOk(s, t);
    SequenceShowsLap(s, pos);
    assert CellOk(s, s.Slot(pos));
    if pos >= |s.cells| {
      NextLapSlot(s, pos - |s.cells|);
    }
    hide And;
  }

  /** At its sequence load, a pop fails exactly if its position is the next one and nothing is published there. */
  lemma PopFailsIff<T>(s: State<T>, t: ThreadId, spurious: bool)
    requires Inv(s) && s.At(t).PopCheck?
    ensures Step(s, t, spurious).At(t).PopFailed? <==> s.At(t).pos == s.dequeuePos && NothingReady(s)
  {
    var pos := s.At(t).pos;
    assert ThreadOk(s, t);
    SequenceShowsLap(s, pos);
    assert CellOk(s, s.Slot(pos));
    hide And;
  }

  /** Some pushes by thread 0 have filled the first k cells of a fresh ring. */
  ghost predicate Filling<T>(s: State<T>, k: nat) {
    && RingOk(s) && k <= |s.cells|
    && s.enqueuePos == |s.claimed| == k && s.dequeuePos == 0
    && (forall t: ThreadId :: AtRest(s.At(t)))
    && forall c :: 0 <= c < |s.cells| ==> s.cells[c].sequence == if c < k then c + 1 else c
  }

  ghost function Pushes<T>(n: nat, v: T): seq<Move<T>> {
    if n == 0 then [] else OnePush(0, v) + Pushes(n - 1, v)
  }

  lemma FillOne<T>(s: State<T>, k: nat, v: T)
    requires Filling(s, k) && k < |s.cells|
    ensures s.Slot(k) == k && Filling(AfterPush(s, 0, v), k + 1)
  {
    FirstLapSlot(s, k);
    hide And, IsPower2;
    var r := AfterPush(s, 0, v);
    forall t: ThreadId ensures AtRest(r.At(t)) {
      assert t != 0 ==> r.At(t) == s.At(t);
    }
  }

  lemma {:induction false} FillRing<T>(s: State<T>, k: nat, v: T, rest: seq<Move<T>>) returns (r: State<T>)
    requires Filling(s, k)
    ensures Filling(r, |s.cells|) && |r.cells| == |s.cells|
    ensures Execute(s, Pushes(|s.cells| - k, v) + rest) == Execute(r, rest)
    decreases |s.cells| - k
  {
    hide And, IsPower2, Execute;
    var n := |s.cells| - k;
    if n == 0 {
      r := s;
      assert Pushes(n, v) + rest == rest;
    } else {
      FillOne(s, k, v);
      assert Pushes(n, v) + rest == OnePush(0, v) + (Pushes(n - 1, v) + rest);
      SoloPush(s, 0, v, Pushes(n - 1, v) + rest);
      r := FillRing(AfterPush(s, 0, v), k + 1, v, rest);
    }
  }

  /**
    "Queue is full" is not exact: in every ring a push can fail with a place free, because the consumer that claimed the
    oldest position has not released its cell.
   */
  lemma PushFailsBelowCapacity<T>(start: State<T>, v: T) returns (moves: seq<Move<T>>)
    requires Init(start) && |start.cells| >= 2
    ensures var s := Execute(start, moves);
      && s.dequeuePos <= s.enqueuePos <= |s.claimed| && |s.Contents()| == |start.cells| - 1
      && s.At(0).PushCheck? && Step(s, 0, false).At(0).PushFailed?
  {
    var pop: seq<Move<T>> := [CallPop(1), Run(1, false), Run(1, false), Run(1, false)];
    var push: seq<Move<T>> := [CallPush(0, v), Run(0, false)];
    moves := Pushes(|start.cells|, v) + (pop + push);
    hide And, IsPower2, Execute, Step;
    var full := FillRing(start, 0, v, pop + push);
    FullRingFails(full, v);
  }

  lemma FullRing<T>(full: State<T>)
    requires Filling(full, |full.cells|) && |full.cells| >= 2
    ensures RingOk(full) && full.dequeuePos == 0 && full.enqueuePos == |full.claimed| == |full.cells|
    ensures full.Slot(0) == full.Slot(|full.cells|) == 0 && full.cells[0].sequence == 1
    ensures AtRest(full.At(0)) && AtRest(full.At(1))
  {
    FirstLapSlot(full, 0);
    NextLapSlot(full, 0);
    hide And, IsPower2;
  }

  lemma FullRingFails<T>(full: State<T>, v: T)
    requires Filling(full, |full.cells|) && |full.cells| >= 2
    ensures var s := Execute(full, [CallPop(1), Run(1, false), Run(1, false), Run(1, false)]
                                     + [CallPush(0, v), Run(0, false)]);
      && s.dequeuePos <= s.enqueuePos <= |s.claimed| && |s.Contents()| == |full.cells| - 1
      && s.At(0).PushCheck? && Step(s, 0, false).At(0).PushFailed?
  {
    hide And, IsPower2, Execute, Step, Filling;
    FullRing(full);
    var claimed := SoloPopClaim(full, 1, [CallPush(0, v), Run(0, false)]);
    var checking := SoloPushFails(claimed, 0, v);
  }

  lemma SoloPushFails<T>(s: State<T>, t: ThreadId, v: T) returns (r: State<T>)
    requires RingOk(s) && AtRest(s.At(t))
    requires s.Slot(s.enqueuePos) < |s.cells| && s.cells[s.Slot(s.enqueuePos)].sequence < s.enqueuePos
    ensures r == s.(threads := s.threads[t := PushCheck(v, s.enqueuePos)])
    ensures Execute(s, [CallPush(t, v), Run(t, false)]) == r && Step(r, t, false).At(t).PushFailed?
  {
    hide And, IsPower2, Execute;
    var moves := [CallPush(t, v), Run(t, false)];
    r := Follow(s, moves);
    r := Follow(r, moves[1..]);
    assert moves[1..][1..] == [];
    ExecuteNothing(r);
  }

  lemma SoloPopFails<T>(s: State<T>, t: ThreadId) returns (r: State<T>)
    requires RingOk(s) && AtRest(s.At(t))
    requires s.Slot(s.dequeuePos) < |s.cells| && s.cells[s.Slot(s.dequeuePos)].sequence < s.dequeuePos + 1
    ensures r == s.(threads := s.threads[t := PopCheck(s.dequeuePos)])
    ensures Execute(s, [CallPop(t), Run(t, false)]) == r && Step(r, t, false).At(t).PopFailed?
  {
    hide And, IsPower2, Execute;
    var moves := [CallPop(t), Run(t, false)];
    r := Follow(s, moves);
    r := Follow(r, moves[1..]);
    assert moves[1..][1..] == [];
    ExecuteNothing(r);
  }

  lemma SoloPopClaim<T>(s: State<T>, t: ThreadId, rest: seq<Move<T>>) returns (r: State<T>)
    requires RingOk(s) && AtRest(s.At(t))
    requires s.Slot(s.dequeuePos) < |s.cells| && s.cells[s.Slot(s.dequeuePos)].sequence == s.dequeuePos + 1
    ensures r == s.(dequeuePos := s.dequeuePos + 1, consumers := s.consumers + [t],
                    threads := s.threads[t := PopRead(s.dequeuePos)])
    ensures Execute(s, [CallPop(t), Run(t, false), Run(t, false), Run(t, false)] + rest) == Execute(r, rest)
  {
    hide And, IsPower2, Execute;
    var moves := [CallPop(t), Run(t, false), Run(t, false), Run(t, false)] + rest;
    r := Follow(s, moves);
    r := Follow(r, moves[1..]);
    r := Follow(r, moves[2..]);
    r := Follow(r, moves[3..]);
    assert moves[4..] == rest;
  }

  /**
    "Queue is empty" is not exact: in every ring a pop can fail behind a completed push, because the producer that
    claimed the position in front has not published it.
   */
  lemma PopFailsBehindPush<T>(start: State<T>, v: T, w: T) returns (moves: seq<Move<T>>)
    requires Init(start) && |start.cells| >= 2
    ensures var s := Execute(start, moves);
      && s.dequeuePos <= s.enqueuePos <= |s.claimed| && s.Contents() == [v, w] && s.At(1) == PushDone(1)
      && s.At(2).PopCheck? && Step(s, 2, false).At(2).PopFailed?
  {
    FirstLapSlot(start, 0);
    FirstLapSlot(start, 1);
    hide And, IsPower2, Execute;
    var pop: seq<Move<T>> := [CallPop(2), Run(2, false)];
    var later := OnePush(1, w) + pop;
    moves := [CallPush(0, v), Run(0, false), Run(0, false), Run(0, false)] + later;
    var claimed := SoloClaim(start, 0, v, later);
    SoloPush(claimed, 1, w, pop);
    var pushed := AfterPush(claimed, 1, w);
    var checking := SoloPopFails(pushed, 2);
  }

  /** A full queue has no room. */
  lemma FullHasNoRoom<T>(s: State<T>)
    requires Inv(s) && |s.Contents()| == |s.cells|
    ensures NoRoom(s)
  {
    var pos := s.enqueuePos;
    SequenceShowsLap(s, pos - |s.cells|);
    assert CellOk(s, s.Slot(pos - |s.cells|));
    hide And;
  }

  /** An empty queue has nothing ready. */
  lemma EmptyHasNothingReady<T>(s: State<T>)
    requires Inv(s) && s.Contents() == []
    ensures NothingReady(s)
  {
    SequenceShowsLap(s, s.dequeuePos);
    assert CellOk(s, s.Slot(s.dequeuePos));
    hide And;
  }

  /**
    Exactly when a push that finds no room is wrong about a full queue: some thread has claimed the position one lap
    back for its pop and has not released that cell.
   */
  lemma NoRoomBelowCapacityIff<T>(s: State<T>)
    requires Inv(s) && NoRoom(s)
    ensures |s.Contents()| < |s.cells| <==> exists t: ThreadId :: Reads(s.At(t), s.enqueuePos - |s.cells|)
  {
    var p := s.enqueuePos - |s.cells|;
    SequenceShowsLap(s, p);
    assert CellOk(s, s.Slot(p));
    if t: ThreadId :| Reads(s.At(t), p) {
      assert ThreadOk(s, t);
    }
    hide And;
  }

  /**
    Exactly when a pop that finds nothing ready is wrong about an empty queue: some thread has claimed the next position
    for its push and has not published it.
   */
  lemma NothingReadyNonemptyIff<T>(s: State<T>)
    requires Inv(s) && NothingReady(s)
    ensures s.Contents() != [] <==> exists t: ThreadId :: Writes(s.At(t), s.dequeuePos)
  {
    var p := s.dequeuePos;
    SequenceShowsLap(s, p);
    assert CellOk(s, s.Slot(p));
    if t: ThreadId :| Writes(s.At(t), p) {
      assert ThreadOk(s, t);
    }
    hide And;
  }

  /** No thread is inside a data-access phase. */
  ghost predicate Quiet<T>(s: State<T>) {
    forall t: ThreadId, p: nat :: !Writes(s.At(t), p) && !Reads(s.At(t), p)
  }

  /** With no access in flight, there is no room exactly when the queue is full. */
  lemma QuietNoRoomIffFull<T>(s: State<T>)
    requires Inv(s) && Quiet(s)
    ensures NoRoom(s) <==> |s.Contents()| == |s.cells|
  {
    hide And, CellOk, ThreadOk, NoRoom;
    if NoRoom(s) {
      NoRoomMeansLap(s);
      NoRoomBelowCapacityIff(s);
    }
    if |s.Contents()| == |s.cells| {
      FullHasNoRoom(s);
    }
  }

  lemma NoRoomMeansLap<T>(s: State<T>)
    requires Sizes(s) && NoRoom(s)
    ensures s.enqueuePos >= |s.cells|
  {}

  /** With no access in flight, nothing is ready exactly when the queue is empty. */
  lemma QuietNothingReadyIffEmpty<T>(s: State<T>)
    requires Inv(s) && Quiet(s)
    ensures NothingReady(s) <==> s.Contents() == []
  {
    hide And, CellOk, ThreadOk, NothingReady;
    if NothingReady(s) {
      NothingReadyNonemptyIff(s);
    }
    if s.Contents() == [] {
      EmptyHasNothingReady(s);
    }
  }

  /** Conservation: with no access in flight, every claimed value is either delivered or in its cell, in order. */
  lemma QuietConservation<T>(s: State<T>, p: nat)
    requires Inv(s) && Quiet(s) && p < s.enqueuePos
    ensures p < s.dequeuePos ==> p in s.delivered && s.delivered[p] == s.claimed[p]
    ensures p >= s.dequeuePos ==> Holds(s, p, p + 1) && s.cells[s.Slot(p)].data == s.claimed[p]
  {
    if p < s.dequeuePos {
      assert !Reads(s.At(s.consumers[p]), p);
    } else {
      SequenceShowsLap(s, p);
      assert CellOk(s, s.Slot(p));
      assert !Writes(s.At(s.producers[p]), p);
    }
    hide And;
  }

  /** A sequence ahead of the position means the position is stale, so retries need progress by someone else. */
  lemma AheadMeansStale<T>(s: State<T>, t: ThreadId)
    requires Inv(s)
    ensures s.At(t).PushCheck? && Step(s, t, false).At(t).PushLoad? ==> s.At(t).pos < s.enqueuePos
    ensures s.At(t).PopCheck? && Step(s, t, false).At(t).PopLoad? ==> s.At(t).pos < s.dequeuePos
  {
    assert ThreadOk(s, t);
    if s.At(t).PushCheck? || s.At(t).PopCheck? {
      var pos := s.At(t).pos;
      SequenceShowsLap(s, pos);
      assert CellOk(s, s.Slot(pos));
    }
    hide And;
  }
}
