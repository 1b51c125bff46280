/**
  The multi-producer multi-consumer queue as an object updated in place. `Perform` carries out one atomic step of one
  thread on the cells and positions. `Push` and `Pop` follow the source's retry loops for one thread, with an arbitrary
  batch of other threads' steps in front of every atomic step of their own.
 */
module MpmcQueue {
  import opened Bitmask
  import opened Wrappers
  import opened MpmcProtocol

  class MpmcQueue<T(0)> {
    const cells: array<Cell<T>>
    const mask: nat
    var enqueuePos: nat
    var dequeuePos: nat

    /** Where every thread stands; the local variables of its call. */
    var threads: map<ThreadId, Thread<T>>

    ghost var claimed: seq<T>
    ghost var producers: seq<ThreadId>
    ghost var consumers: seq<ThreadId>
    ghost var delivered: map<nat, T>
    ghost var laps: seq<nat>

    ghost function Snapshot(): State<T>
      reads this, cells
    {
      State(cells[..], enqueuePos, dequeuePos, threads, claimed, producers, consumers, delivered, laps)
    }

    ghost predicate Valid()
      reads this, cells
    {
      Inv(Snapshot()) && cells.Length == mask + 1
    }

    function Stands(t: ThreadId): Thread<T>
      reads this
    {
      if t in threads then threads[t] else Idle
    }

    constructor (capacity: nat)
      requires IsPower2(capacity)
      ensures fresh(cells) && Init(Snapshot()) && cells.Length == capacity
      ensures Valid() <==> capacity >= 2
    {
      cells := new Cell<T>[capacity];
      mask := capacity - 1;
      enqueuePos, dequeuePos, threads := 0, 0, map[];
      claimed, producers, consumers, delivered := [], [], [], map[];
      laps := seq(capacity, i => i);
      new;
      for i := 0 to capacity
        invariant cells.Length == capacity
        invariant forall c :: 0 <= c < i ==> cells[c].sequence == c
        invariant enqueuePos == dequeuePos == 0 && threads == map[]
        invariant claimed == [] && producers == [] && consumers == [] && delivered == map[]
        invariant laps == seq(capacity, i => i) && mask == capacity - 1
      {
        cells[i] := Cell(i, cells[i].data);
      }
      if capacity >= 2 {
        InitInv(Snapshot());
      }
    }

    /** One atomic step of one thread, in place. */
    method Perform(move: Move<T>)
      requires Valid()
      modifies this, cells
      ensures Valid() && Snapshot() == Apply(old(Snapshot()), move)
    {
      hide And, IsPower2, Inv, Step;
      ghost var s := Snapshot();
      ApplyKeepsInv(s, move);
      InvShape(s);
      match move {
        case CallPush(t, v) =>
          if AtRest(Stands(t)) {
            threads := threads[t := PushLoad(v)];
          }
        case CallPop(t) =>
          if AtRest(Stands(t)) {
            threads := threads[t := PopLoad];
          }
        case Run(t, spurious) =>
          if Pushing(Stands(t)) {
            RunPush(t, spurious);
          } else {
            RunPop(t, spurious);
          }
      }
    }

    method RunPush(t: ThreadId, spurious: bool)
      requires RingOk(Snapshot()) && cells.Length == mask + 1 && Pushing(Stands(t))
      modifies this, cells
      ensures Snapshot() == Step(old(Snapshot()), t, spurious)
    {
      hide And, IsPower2;
      ghost var s := Snapshot();
      match Stands(t) {
        case PushLoad(v) =>
          threads := threads[t := PushCheck(v, enqueuePos)];
        case PushCheck(v, pos) =>
          SlotInRange(s, pos);
          var seen := cells[And(pos, mask)].sequence;
          if seen == pos {
            threads := threads[t := PushClaim(v, pos)];
          } else if seen < pos {
            threads := threads[t := PushFailed];
          } else {
            threads := threads[t := PushLoad(v)];
          }
        case PushClaim(v, pos) =>
          if enqueuePos == pos && !spurious {
            enqueuePos := pos + 1;
            claimed, producers := claimed + [v], producers + [t];
            threads := threads[t := PushWrite(v, pos)];
          } else {
            threads := threads[t := PushCheck(v, enqueuePos)];
          }
        case PushWrite(v, pos) =>
          SlotInRange(s, pos);
          var c := And(pos, mask);
          cells[c] := cells[c].(data := v);
          threads := threads[t := PushPublish(v, pos)];
        case PushPublish(v, pos) =>
          SlotInRange(s, pos);
          var c := And(pos, mask);
          cells[c] := cells[c].(sequence := pos + 1);
          threads := threads[t := PushDone(pos)];
      }
    }

    method RunPop(t: ThreadId, spurious: bool)
      requires RingOk(Snapshot()) && cells.Length == mask + 1 && !Pushing(Stands(t))
      modifies this, cells
      ensures Snapshot() == Step(old(Snapshot()), t, spurious)
    {
      hide And, IsPower2;
      ghost var s := Snapshot();
      match Stands(t) {
        case PopLoad =>
          threads := threads[t := PopCheck(dequeuePos)];
        case PopCheck(pos) =>
          SlotInRange(s, pos);
          var seen := cells[And(pos, mask)].sequence;
          if seen == pos + 1 {
            threads := threads[t := PopClaim(pos)];
          } else if seen < pos + 1 {
            threads := threads[t := PopFailed];
          } else {
            threads := threads[t := PopLoad];
          }
        case PopClaim(pos) =>
          if dequeuePos == pos && !spurious {
            dequeuePos := pos + 1;
            consumers := consumers + [t];
            threads := threads[t := PopRead(pos)];
          } else {
            threads := threads[t := PopCheck(dequeuePos)];
          }
        case PopRead(pos) =>
          SlotInRange(s, pos);
          var v := cells[And(pos, mask)].data;
          delivered := delivered[pos := v];
          threads := threads[t := PopRelease(v, pos)];
        case PopRelease(v, pos) =>
          SlotInRange(s, pos);
          var c := And(pos, mask);
          cells[c] := cells[c].(sequence := pos + mask + 1);
          laps := laps[c := pos + mask + 1];
          threads := threads[t := PopDone(v, pos)];
        case _ =>
      }
    }

    /** The other threads run: every move of the batch that is not a move of thread t. */
    method Interfere(t: ThreadId, batch: seq<Move<T>>)
      requires Valid()
      modifies this, cells
      ensures Valid() && Stands(t) == old(Stands(t)) && Extends(old(Snapshot()), Snapshot())
      ensures Claims(producers, t) == old(Claims(producers, t)) && Claims(consumers, t) == old(Claims(consumers, t))
      ensures batch == [] ==> Snapshot() == old(Snapshot())
    {
      hide And, IsPower2, Inv, Apply, Claims;
      for k := 0 to |batch|
        invariant Valid() && Stands(t) == old(Stands(t)) && Extends(old(Snapshot()), Snapshot())
        invariant Claims(producers, t) == old(Claims(producers, t)) && Claims(consumers, t) == old(Claims(consumers, t))
        invariant k == 0 ==> Snapshot() == old(Snapshot())
      {
        if Mover(batch[k]) != t {
          ghost var before := Snapshot();
          OthersMove(before, batch[k], t);
          Perform(batch[k]);
        }
      }
    }

    /** The next batch of other threads' steps, and then one step of thread t. */
    method Advance(t: ThreadId, spurious: bool, others: seq<seq<Move<T>>>)
      returns (rest: seq<seq<Move<T>>>, ghost between: State<T>)
      requires Valid()
      modifies this, cells
      ensures Valid() && Extends(old(Snapshot()), Snapshot())
      ensures Inv(between) && Extends(old(Snapshot()), between) && Extends(between, Snapshot())
      ensures old(Stands(t)).PushCheck? && Stands(t).PushFailed? ==> NoRoom(between)
      ensures old(Stands(t)).PopCheck? && Stands(t).PopFailed? ==> NothingReady(between)
      ensures Moved(old(Stands(t)), Snapshot(), t, spurious)
      ensures Stands(t).PushWrite? ==> |old(claimed)| <= Stands(t).pos
      ensures Stands(t).PopRead? ==> |old(consumers)| <= Stands(t).pos
      ensures Claims(producers, t) == old(Claims(producers, t))
                + (if old(Stands(t)).PushClaim? && Stands(t).PushWrite? then 1 else 0)
      ensures Claims(consumers, t) == old(Claims(consumers, t))
                + (if old(Stands(t)).PopClaim? && Stands(t).PopRead? then 1 else 0)
      ensures others == [] ==> rest == [] && Stale(old(Snapshot()), t, Snapshot())
      ensures others != [] ==> |rest| < |others|
      ensures old(enqueuePos) <= enqueuePos && old(dequeuePos) <= dequeuePos && Behind(Snapshot(), t)
    {
      hide And, IsPower2, Inv, Apply, Extends, Claims;
      ghost var start := Snapshot();
      if others == [] {
        rest := [];
        ExtendsSelf(Snapshot());
      } else {
        Interfere(t, others[0]);
        rest := others[1..];
      }
      between := Snapshot();
      OwnMove(between, t, spurious);
      Perform(Run(t, spurious));
      ExtendsTrans(old(Snapshot()), between, Snapshot());
      ExtendsLengths(old(Snapshot()), between);
      PositionsGrow(start, Snapshot());
      NeverAhead(Snapshot(), t);
    }

    /**
      `push` by thread t. Before every atomic step the next batch of `others` runs; `weak` says which of its
      compare-and-swaps fail spuriously. It claims one position if it succeeds and none if it fails.
     */
    method Push(t: ThreadId, value: T, others: seq<seq<Move<T>>>, weak: seq<bool>)
      returns (ok: bool, ghost refused: State<T>)
      requires Valid() && AtRest(Stands(t))
      modifies this, cells
      ensures Valid() && Extends(old(Snapshot()), Snapshot())
      ensures ok ==> Stands(t).PushDone? && Pushed(old(Snapshot()), Snapshot(), t, value, Stands(t).pos)
      ensures !ok ==> Stands(t).PushFailed? && Inv(refused) && NoRoom(refused)
      ensures !ok ==> Extends(old(Snapshot()), refused) && Extends(refused, Snapshot())
      ensures Claims(producers, t) == old(Claims(producers, t)) + (if ok then 1 else 0)
      ensures Claims(consumers, t) == old(Claims(consumers, t))
    {
      hide And, IsPower2, Inv, Apply, Claims, Extends;
      ghost var start := Snapshot();
      OwnCall(start, CallPush(t, value));
      Perform(CallPush(t, value));
      ghost var called := Snapshot();
      var rest;
      ghost var rounds;
      ok, rest, refused, rounds := ClaimForPush(t, value, others, weak);
      ghost var won := Snapshot();
      ExtendsTrans(start, called, won);
      if !ok {
        ExtendsTrans(start, called, refused);
      } else {
        ghost var pos := Stands(t).pos;
        PushedLater(start, called, won, t, value, pos);
        rest, refused := Advance(t, false, rest);
        ghost var written := Snapshot();
        rest, refused := Advance(t, false, rest);
        ExtendsTrans(won, written, Snapshot());
        ExtendsTrans(start, won, Snapshot());
        StillPushed(start, won, Snapshot(), t, value, pos);
      }
    }

    /**
      The retry loop of `push`. It is lock-free: whatever the others do, every round but the last is paid for by a
      spurious failure or by the shared position moving on, that is, by some thread's successful claim.
     */
    method ClaimForPush(t: ThreadId, value: T, others: seq<seq<Move<T>>>, weak: seq<bool>)
      returns (ok: bool, rest: seq<seq<Move<T>>>, ghost refused: State<T>, ghost rounds: nat)
      requires Valid() && Stands(t) == PushLoad(value)
      modifies this, cells
      ensures Valid() && Extends(old(Snapshot()), Snapshot())
      ensures ok ==> Stands(t).PushWrite? && Stands(t).value == value
      ensures ok ==> Pushed(old(Snapshot()), Snapshot(), t, value, Stands(t).pos)
      ensures !ok ==> Stands(t).PushFailed? && Inv(refused) && NoRoom(refused)
      ensures !ok ==> Extends(old(Snapshot()), refused) && Extends(refused, Snapshot())
      ensures Claims(producers, t) == old(Claims(producers, t)) + (if ok then 1 else 0)
      ensures Claims(consumers, t) == old(Claims(consumers, t))
      ensures rounds <= 1 + Failures(weak) + (enqueuePos - old(enqueuePos))
    {
      hide And, IsPower2, Inv, Apply, Claims, Extends, NoRoom, Pushed;
      ghost var start := Snapshot();
      var pattern := weak;
      rounds := 0;
      rest, refused := Advance(t, false, others);
      while true
        invariant Valid() && Extends(start, Snapshot())
        invariant Stands(t).PushCheck? && Stands(t).value == value
        invariant Claims(producers, t) == old(Claims(producers, t)) && Claims(consumers, t) == old(Claims(consumers, t))
        invariant old(enqueuePos) <= Stands(t).pos <= enqueuePos
        invariant rounds + Failures(pattern) <= Failures(weak) + (Stands(t).pos - old(enqueuePos))
        decreases |rest|, |pattern|, if Stands(t).pos < enqueuePos then 1 else 0
      {
        ghost var before := Snapshot();
        rounds := rounds + 1;
        rest, pattern, refused := TryPush(t, rest, pattern);
        ExtendsTrans(start, before, Snapshot());
        if Stands(t).PushFailed? {
          ExtendsTrans(start, before, refused);
          ok := false;
          return;
        }
        if Stands(t).PushWrite? {
          PushedLater(start, before, Snapshot(), t, value, Stands(t).pos);
          ok := true;
          return;
        }
      }
    }

    /** One round of that loop: check the cell's sequence, then swap or reload. */
    method TryPush(t: ThreadId, others: seq<seq<Move<T>>>, weak: seq<bool>)
      returns (rest: seq<seq<Move<T>>>, pattern: seq<bool>, ghost refused: State<T>)
      requires Valid() && Stands(t).PushCheck?
      modifies this, cells
      ensures Valid() && Extends(old(Snapshot()), Snapshot())
      ensures Stands(t).PushCheck? || Stands(t).PushFailed? || Stands(t).PushWrite?
      ensures !Stands(t).PushFailed? ==> Stands(t).value == old(Stands(t)).value
      ensures Stands(t).PushFailed? ==> Inv(refused) && NoRoom(refused)
      ensures Stands(t).PushFailed? ==> Extends(old(Snapshot()), refused) && Extends(refused, Snapshot())
      ensures Stands(t).PushWrite? ==> Pushed(old(Snapshot()), Snapshot(), t, Stands(t).value, Stands(t).pos)
      ensures Claims(producers, t) == old(Claims(producers, t)) + (if Stands(t).PushWrite? then 1 else 0)
      ensures Claims(consumers, t) == old(Claims(consumers, t))
      ensures Stands(t).PushCheck? && others == [] && |pattern| == |weak| ==>
                old(Stands(t).pos) < old(enqueuePos) && Stands(t).pos == enqueuePos
      ensures |pattern| <= |weak| && |rest| <= |others| && (others != [] ==> |rest| < |others|)
      ensures old(enqueuePos) <= enqueuePos && (Stands(t).PushCheck? ==> Stands(t).pos <= enqueuePos)
      ensures Failures(pattern) <= Failures(weak)
      ensures Stands(t).PushCheck? ==> old(Stands(t).pos) <= Stands(t).pos
      ensures Stands(t).PushCheck? ==> old(Stands(t).pos) < Stands(t).pos || Failures(pattern) < Failures(weak)
    {
      hide And, IsPower2, Inv, Apply, Claims, Extends, NoRoom, Pushed;
      ghost var start := Snapshot();
      pattern := weak;
      rest, refused := Advance(t, false, others);
      if !Stands(t).PushFailed? {
        ghost var checked := Snapshot();
        var swapping := Stands(t).PushClaim? && pattern != [];
        var spurious := swapping && pattern[0];
        pattern := if swapping then pattern[1..] else pattern;
        rest, refused := Advance(t, spurious, rest);
        ExtendsTrans(start, checked, Snapshot());
        if Stands(t).PushWrite? {
          PushedSince(start, checked, Snapshot(), t);
        }
      }
    }

    /** `pop` by thread t, under the same interference. */
    method Pop(t: ThreadId, others: seq<seq<Move<T>>>, weak: seq<bool>)
      returns (result: Option<T>, ghost refused: State<T>)
      requires Valid() && AtRest(Stands(t))
      modifies this, cells
      ensures Valid() && Extends(old(Snapshot()), Snapshot())
      ensures result.Some? ==> Stands(t).PopDone? && Popped(old(Snapshot()), Snapshot(), t, result.value, Stands(t).pos)
      ensures result.None? ==> Stands(t).PopFailed? && Inv(refused) && NothingReady(refused)
      ensures result.None? ==> Extends(old(Snapshot()), refused) && Extends(refused, Snapshot())
      ensures Claims(consumers, t) == old(Claims(consumers, t)) + (if result.Some? then 1 else 0)
      ensures Claims(producers, t) == old(Claims(producers, t))
    {
      hide And, IsPower2, Inv, Apply, Claims, Extends;
      ghost var start := Snapshot();
      OwnCall(start, CallPop(t));
      Perform(CallPop(t));
      ghost var called := Snapshot();
      var ok, rest;
      ghost var rounds;
      ok, rest, refused, rounds := ClaimForPop(t, others, weak);
      ghost var won := Snapshot();
      ExtendsTrans(start, called, won);
      if !ok {
        ExtendsTrans(start, called, refused);
        result := None;
        return;
      }
      rest, refused := Advance(t, false, rest);
      ghost var read := Snapshot();
      rest, refused := Advance(t, false, rest);
      ExtendsTrans(won, read, Snapshot());
      ExtendsTrans(start, won, Snapshot());
      DonePop(start, called, Snapshot(), t);
      result := Some(Stands(t).value);
    }

    method ClaimForPop(t: ThreadId, others: seq<seq<Move<T>>>, weak: seq<bool>)
      returns (ok: bool, rest: seq<seq<Move<T>>>, ghost refused: State<T>, ghost rounds: nat)
      requires Valid() && Stands(t).PopLoad?
      modifies this, cells
      ensures Valid() && Extends(old(Snapshot()), Snapshot())
      ensures ok ==> Stands(t).PopRead? && |old(consumers)| <= Stands(t).pos
      ensures !ok ==> Stands(t).PopFailed? && Inv(refused) && NothingReady(refused)
      ensures !ok ==> Extends(old(Snapshot()), refused) && Extends(refused, Snapshot())
      ensures Claims(consumers, t) == old(Claims(consumers, t)) + (if ok then 1 else 0)
      ensures Claims(producers, t) == old(Claims(producers, t))
      ensures rounds <= 1 + Failures(weak) + (dequeuePos - old(dequeuePos))
    {
      hide And, IsPower2, Inv, Apply, Claims, Extends, NothingReady;
      ghost var start := Snapshot();
      var pattern := weak;
      rounds := 0;
      rest, refused := Advance(t, false, others);
      while true
        invariant Valid() && Extends(start, Snapshot())
        invariant Stands(t).PopCheck?
        invariant Claims(producers, t) == old(Claims(producers, t)) && Claims(consumers, t) == old(Claims(consumers, t))
        invariant old(dequeuePos) <= Stands(t).pos <= dequeuePos
        invariant rounds + Failures(pattern) <= Failures(weak) + (Stands(t).pos - old(dequeuePos))
        decreases |rest|, |pattern|, if Stands(t).pos < dequeuePos then 1 else 0
      {
        ghost var before := Snapshot();
        rounds := rounds + 1;
        rest, pattern, refused := TryPop(t, rest, pattern);
        ExtendsTrans(start, before, Snapshot());
        if Stands(t).PopFailed? {
          ExtendsTrans(start, before, refused);
          ok := false;
          return;
        }
        if Stands(t).PopRead? {
          ExtendsLengths(start, before);
          ok := true;
          return;
        }
      }
    }

    /** One round of that loop. */
    method TryPop(t: ThreadId, others: seq<seq<Move<T>>>, weak: seq<bool>)
      returns (rest: seq<seq<Move<T>>>, pattern: seq<bool>, ghost refused: State<T>)
      requires Valid() && Stands(t).PopCheck?
      modifies this, cells
      ensures Valid() && Extends(old(Snapshot()), Snapshot())
      ensures Stands(t).PopCheck? || Stands(t).PopFailed? || Stands(t).PopRead?
      ensures Stands(t).PopFailed? ==> Inv(refused) && NothingReady(refused)
      ensures Stands(t).PopFailed? ==> Extends(old(Snapshot()), refused) && Extends(refused, Snapshot())
      ensures Stands(t).PopRead? ==> |old(consumers)| <= Stands(t).pos
      ensures Claims(consumers, t) == old(Claims(consumers, t)) + (if Stands(t).PopRead? then 1 else 0)
      ensures Claims(producers, t) == old(Claims(producers, t))
      ensures Stands(t).PopCheck? && others == [] && |pattern| == |weak| ==>
                old(Stands(t).pos) < old(dequeuePos) && Stands(t).pos == dequeuePos
      ensures |pattern| <= |weak| && |rest| <= |others| && (others != [] ==> |rest| < |others|)
      ensures old(dequeuePos) <= dequeuePos && (Stands(t).PopCheck? ==> Stands(t).pos <= dequeuePos)
      ensures Failures(pattern) <= Failures(weak)
      ensures Stands(t).PopCheck? ==> old(Stands(t).pos) <= Stands(t).pos
      ensures Stands(t).PopCheck? ==> old(Stands(t).pos) < Stands(t).pos || Failures(pattern) < Failures(weak)
    {
      hide And, IsPower2, Inv, Apply, Claims, Extends, NothingReady;
      ghost var start := Snapshot();
      pattern := weak;
      rest, refused := Advance(t, false, others);
      if !Stands(t).PopFailed? {
        ghost var checked := Snapshot();
        var swapping := Stands(t).PopClaim? && pattern != [];
        var spurious := swapping && pattern[0];
        pattern := if swapping then pattern[1..] else pattern;
        rest, refused := Advance(t, spurious, rest);
        ExtendsTrans(start, checked, Snapshot());
        ExtendsLengths(start, checked);
      }
    }
  }

  /** How many of the listed compare-and-swaps fail spuriously. */
  function Failures(pattern: seq<bool>): nat {
    if pattern == [] then 0 else (if pattern[0] then 1 else 0) + Failures(pattern[1..])
  }

  /** A thread never holds a position ahead of the shared one. */
  ghost predicate Behind<T>(s: State<T>, t: ThreadId) {
    && (s.At(t).PushCheck? || s.At(t).PushClaim? ==> s.At(t).pos <= s.enqueuePos)
    && (s.At(t).PopCheck? || s.At(t).PopClaim? ==> s.At(t).pos <= s.dequeuePos)
  }

  lemma NeverAhead<T>(s: State<T>, t: ThreadId)
    requires Inv(s)
    ensures Behind(s, t)
  {
    hide CellOk;
    assert ThreadOk(s, t);
  }

  lemma PositionsGrow<T>(s: State<T>, s': State<T>)
    requires Inv(s) && Inv(s') && Extends(s, s')
    ensures s.enqueuePos <= s'.enqueuePos && s.dequeuePos <= s'.dequeuePos
  {
    hide CellOk, ThreadOk;
  }

  // ---- One thread's own steps ----------------------------------------------------------------------------

  /** How a thread goes on from where it stood, in the state it reaches. */
  ghost predicate Moved<T>(th: Thread<T>, s: State<T>, t: ThreadId, spurious: bool) {
    var th' := s.At(t);
    match th
    case PushLoad(v) => th' == PushCheck(v, s.enqueuePos)
    case PushCheck(v, pos) =>
      th' == PushClaim(v, pos) || th' == PushFailed || (th' == PushLoad(v) && pos < s.enqueuePos)
    case PushClaim(v, pos) =>
      || (th' == PushWrite(v, pos) && |s.claimed| == s.enqueuePos == pos + 1)
      || (th' == PushCheck(v, s.enqueuePos) && (spurious || pos < s.enqueuePos))
    case PushWrite(v, pos) => th' == PushPublish(v, pos)
    case PushPublish(v, pos) => th' == PushDone(pos)
    case PopLoad => th' == PopCheck(s.dequeuePos)
    case PopCheck(pos) => th' == PopClaim(pos) || th' == PopFailed || (th' == PopLoad && pos < s.dequeuePos)
    case PopClaim(pos) =>
      || (th' == PopRead(pos) && |s.consumers| == s.dequeuePos == pos + 1)
      || (th' == PopCheck(s.dequeuePos) && (spurious || pos < s.dequeuePos))
    case PopRead(pos) => th'.PopRelease? && th'.pos == pos
    case PopRelease(v, pos) => th' == PopDone(v, pos)
    case _ => true
  }

  /** With nobody else moving, the positions only move by a successful claim of this thread. */
  ghost predicate Stale<T>(s: State<T>, t: ThreadId, s': State<T>) {
    && (s'.At(t).PushWrite? || s'.enqueuePos == s.enqueuePos)
    && (s'.At(t).PopRead? || s'.dequeuePos == s.dequeuePos)
  }

  lemma OwnMoved<T>(s: State<T>, t: ThreadId, spurious: bool)
    requires Inv(s)
    ensures Moved(s.At(t), Step(s, t, spurious), t, spurious) && Stale(s, t, Step(s, t, spurious))
  {
    hide Inv, Step, Moved, Stale;
    if s.At(t).PushCheck? || s.At(t).PopCheck? {
      CheckMoved(s, t, spurious);
    } else if s.At(t).PushClaim? || s.At(t).PopClaim? {
      ClaimMoved(s, t, spurious);
    } else {
      OtherwiseMoved(s, t, spurious);
    }
  }

  lemma CheckMoved<T>(s: State<T>, t: ThreadId, spurious: bool)
    requires Inv(s) && (s.At(t).PushCheck? || s.At(t).PopCheck?)
    ensures Moved(s.At(t), Step(s, t, spurious), t, spurious) && Stale(s, t, Step(s, t, spurious))
  {
    AheadMeansStale(s, t);
    hide And, IsPower2, CellOk, ThreadOk;
    assert Step(s, t, true) == Step(s, t, false);
  }

  lemma ClaimMoved<T>(s: State<T>, t: ThreadId, spurious: bool)
    requires Inv(s) && (s.At(t).PushClaim? || s.At(t).PopClaim?)
    ensures Moved(s.At(t), Step(s, t, spurious), t, spurious) && Stale(s, t, Step(s, t, spurious))
  {
    OwnPosition(s, t);
    hide And, IsPower2, CellOk, ThreadOk;
  }

  lemma OtherwiseMoved<T>(s: State<T>, t: ThreadId, spurious: bool)
    requires Inv(s) && !s.At(t).PushCheck? && !s.At(t).PopCheck? && !s.At(t).PushClaim? && !s.At(t).PopClaim?
    ensures Moved(s.At(t), Step(s, t, spurious), t, spurious) && Stale(s, t, Step(s, t, spurious))
  {
    hide And, IsPower2, CellOk, ThreadOk;
  }

  lemma OwnPosition<T>(s: State<T>, t: ThreadId)
    requires Inv(s)
    ensures s.At(t).PushClaim? ==> s.At(t).pos <= s.enqueuePos
    ensures s.At(t).PopClaim? ==> s.At(t).pos <= s.dequeuePos
  {
    hide CellOk;
    assert ThreadOk(s, t);
  }

  lemma OwnClaim<T>(s: State<T>, t: ThreadId, spurious: bool)
    requires Inv(s)
    ensures var s' := Step(s, t, spurious);
      && (s'.At(t).PushWrite? ==> |s.claimed| <= s'.At(t).pos)
      && (s'.At(t).PopRead? ==> |s.consumers| <= s'.At(t).pos)
  {
    StayClaimed(s, t, spurious);
    hide And, IsPower2, CellOk, ThreadOk;
  }

  lemma StayClaimed<T>(s: State<T>, t: ThreadId, spurious: bool)
    requires Inv(s)
    ensures !s.At(t).PushWrite? || !Step(s, t, spurious).At(t).PushWrite?
    ensures !s.At(t).PopRead? || !Step(s, t, spurious).At(t).PopRead?
  {}

  lemma OwnRefusal<T>(s: State<T>, t: ThreadId, spurious: bool)
    requires Inv(s)
    ensures var s' := Step(s, t, spurious);
      && (s.At(t).PushCheck? && s'.At(t).PushFailed? ==> NoRoom(s))
      && (s.At(t).PopCheck? && s'.At(t).PopFailed? ==> NothingReady(s))
  {
    if s.At(t).PushCheck? {
      PushFailsIff(s, t, spurious);
    } else if s.At(t).PopCheck? {
      PopFailsIff(s, t, spurious);
    }
    hide Step, NoRoom, NothingReady, CellOk, ThreadOk;
  }

  lemma OwnMove<T>(s: State<T>, t: ThreadId, spurious: bool)
    requires Inv(s)
    ensures var s' := Apply(s, Run(t, spurious));
      && Moved(s.At(t), s', t, spurious) && Stale(s, t, s') && Extends(s, s')
      && (s.At(t).PushCheck? && s'.At(t).PushFailed? ==> NoRoom(s))
      && (s.At(t).PopCheck? && s'.At(t).PopFailed? ==> NothingReady(s))
      && (s'.At(t).PushWrite? ==> |s.claimed| <= s'.At(t).pos)
      && (s'.At(t).PopRead? ==> |s.consumers| <= s'.At(t).pos)
      && Claims(s'.producers, t) == Claims(s.producers, t)
           + (if s.At(t).PushClaim? && s'.At(t).PushWrite? then 1 else 0)
      && Claims(s'.consumers, t) == Claims(s.consumers, t)
           + (if s.At(t).PopClaim? && s'.At(t).PopRead? then 1 else 0)
  {
    StepClaims(s, t, spurious, t);
    StepExtends(s, t, spurious);
    OwnMoved(s, t, spurious);
    OwnClaim(s, t, spurious);
    OwnRefusal(s, t, spurious);
    hide Step, Moved, Stale, NoRoom, NothingReady, Extends, CellOk, ThreadOk;
  }

  lemma OwnCall<T>(s: State<T>, move: Move<T>)
    requires Inv(s) && !move.Run?
    ensures Extends(s, Apply(s, move))
    ensures Apply(s, move).producers == s.producers && Apply(s, move).consumers == s.consumers
    ensures move.CallPush? && AtRest(s.At(move.t)) ==> Apply(s, move).At(move.t) == PushLoad(move.value)
    ensures move.CallPop? && AtRest(s.At(move.t)) ==> Apply(s, move).At(move.t) == PopLoad
  {}

  lemma ExtendsTrans<T>(a: State<T>, b: State<T>, c: State<T>)
    requires Extends(a, b) && Extends(b, c)
    ensures Extends(a, c)
  {}

  /** Thread t pushed this value as position pos, after everything that was claimed before. */
  ghost predicate Pushed<T>(before: State<T>, after: State<T>, t: ThreadId, value: T, pos: nat) {
    && |before.claimed| <= pos < |after.claimed| && pos < |after.producers|
    && after.claimed[pos] == value && after.producers[pos] == t
  }

  /** Thread t popped position pos, after everything that was popped before, and got the value pushed there. */
  ghost predicate Popped<T>(before: State<T>, after: State<T>, t: ThreadId, value: T, pos: nat) {
    && |before.consumers| <= pos < |after.consumers| && pos < |after.claimed|
    && after.claimed[pos] == value && after.consumers[pos] == t
  }

  lemma ExtendsLengths<T>(a: State<T>, b: State<T>)
    requires Extends(a, b)
    ensures |a.claimed| <= |b.claimed| && |a.consumers| <= |b.consumers|
  {}

  lemma WonPosition<T>(won: State<T>, t: ThreadId)
    requires Inv(won) && won.At(t).PushWrite?
    ensures var pos := won.At(t).pos;
      pos < |won.claimed| && pos < |won.producers| && won.claimed[pos] == won.At(t).value && won.producers[pos] == t
  {
    assert ThreadOk(won, t);
  }

  lemma PushedSince<T>(start: State<T>, checked: State<T>, won: State<T>, t: ThreadId)
    requires Extends(start, checked) && Inv(won) && won.At(t).PushWrite? && |checked.claimed| <= won.At(t).pos
    ensures Pushed(start, won, t, won.At(t).value, won.At(t).pos)
  {
    WonPosition(won, t);
    hide Inv;
  }

  lemma PushedLater<T>(start: State<T>, called: State<T>, won: State<T>, t: ThreadId, value: T, pos: nat)
    requires Extends(start, called) && Pushed(called, won, t, value, pos)
    ensures Pushed(start, won, t, value, pos)
  {}

  lemma StillPushed<T>(start: State<T>, won: State<T>, end: State<T>, t: ThreadId, value: T, pos: nat)
    requires Pushed(start, won, t, value, pos) && Extends(won, end)
    ensures Pushed(start, end, t, value, pos)
  {}

  lemma DonePop<T>(start: State<T>, called: State<T>, end: State<T>, t: ThreadId)
    requires Inv(end) && end.At(t).PopDone? && Extends(start, called) && |called.consumers| <= end.At(t).pos
    ensures Popped(start, end, t, end.At(t).value, end.At(t).pos)
  {
    assert ThreadOk(end, t);
  }

  predicate Pushing<T>(th: Thread<T>) {
    th.PushLoad? || th.PushCheck? || th.PushClaim? || th.PushWrite? || th.PushPublish?
  }

  function Mover<T>(move: Move<T>): ThreadId {
    match move
    case CallPush(t, _) => t
    case CallPop(t) => t
    case Run(t, _) => t
  }

  lemma InvShape<T>(s: State<T>)
    requires Inv(s)
    ensures RingOk(s) && |s.cells| >= 2
  {}

  lemma ExtendsSelf<T>(s: State<T>)
    ensures Extends(s, s)
  {}

  lemma OtherStands<T>(s: State<T>, u: ThreadId, spurious: bool, t: ThreadId)
    requires Inv(s) && u != t
    ensures Step(s, u, spurious).At(t) == s.At(t)
  {
    hide And, IsPower2, CellOk, ThreadOk;
  }

  lemma OthersMove<T>(s: State<T>, move: Move<T>, t: ThreadId)
    requires Inv(s) && Mover(move) != t
    ensures var s' := Apply(s, move);
      && s'.At(t) == s.At(t) && Extends(s, s')
      && Claims(s'.producers, t) == Claims(s.producers, t) && Claims(s'.consumers, t) == Claims(s.consumers, t)
  {
    hide And, IsPower2, CellOk, ThreadOk, Step, Claims;
    match move {
      case CallPush(_, _) =>
      case CallPop(_) =>
      case Run(u, spurious) =>
        StepExtends(s, u, spurious);
        StepClaims(s, u, spurious, t);
        OtherStands(s, u, spurious, t);
    }
  }
}
