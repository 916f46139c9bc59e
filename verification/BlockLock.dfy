/** The lock that every block carries: one bit per block, one mutex and one condition variable for
    all of them. Each section under the mutex is one step; threads may interleave in any way between
    the steps. */
module BlockLock {

  /** Where a thread is: outside, about to try for a block, about to test the condition it waits for,
      asleep on the condition variable, or between clearing a bit and notifying. */
  datatype Place =
    | Outside
    | Trying(block: nat)
    | Testing(block: nat)
    | Asleep(block: nat)
    | Notifying

  datatype Thread = Thread(place: Place, held: set<nat>)

  datatype State = State(bits: seq<bool>, threads: seq<Thread>)
  {
    function At(t: nat, thread: Thread): State
      requires t < |threads|
    {
      this.(threads := threads[t := thread])
    }
  }

  datatype Event =
    | Lock(t: nat, block: nat)
    | Try(t: nat)
    | Test(t: nat)
    | Wake(t: nat)
    | Unlock(t: nat, block: nat)
    | Notify(t: nat)

  function Start(blocks: nat, threads: nat): State {
    State(seq(blocks, _ => false), seq(threads, _ => Thread(Outside, {})))
  }

  /** When a thread can do this next. Threads unlock only what they hold. `Wake` without a
      notification is a spurious wake-up. */
  predicate Enabled(s: State, e: Event) {
    && e.t < |s.threads|
    && var thread := s.threads[e.t];
       match e
       case Lock(_, block) => thread.place == Outside
       case Try(_) => thread.place.Trying?
       case Test(_) => thread.place.Testing?
       case Wake(_) => thread.place.Asleep?
       case Unlock(_, block) => thread.place == Outside && block in thread.held && block < |s.bits|
       case Notify(_) => thread.place == Notifying
  }

  function Woken(thread: Thread): Thread {
    if thread.place.Asleep? then thread.(place := Testing(thread.place.block)) else thread
  }

  /** A block beyond the last one makes the bitmap throw. */
  function Step(s: State, e: Event): (s': State)
    requires Enabled(s, e)
    ensures |s'.threads| == |s.threads| && |s'.bits| == |s.bits|
  {
    var thread := s.threads[e.t];
    match e
    case Lock(t, block) => s.At(t, thread.(place := Trying(block)))
    case Try(t) =>
      var block := thread.place.block;
      if |s.bits| <= block then s.At(t, thread.(place := Outside))
      else if s.bits[block] then s.At(t, thread.(place := Testing(block)))
      else s.(bits := s.bits[block := true]).At(t, Thread(Outside, thread.held + {block}))
    case Test(t) =>
      var block := thread.place.block;
      if |s.bits| <= block then s.At(t, thread.(place := Outside))
      else s.At(t, thread.(place := if s.bits[block] then Asleep(block) else Trying(block)))
    case Wake(t) => s.At(t, Woken(thread))
    case Unlock(t, block) => s.(bits := s.bits[block := false]).At(t, Thread(Notifying, thread.held - {block}))
    case Notify(t) =>
      var woken := seq(|s.threads|, u requires 0 <= u < |s.threads| => Woken(s.threads[u]));
      s.(threads := woken[t := thread.(place := Outside)])
  }

  predicate Possible(s: State, run: seq<Event>)
    decreases |run|
  {
    run == [] || (Enabled(s, run[0]) && Possible(Step(s, run[0]), run[1..]))
  }

  function After(s: State, run: seq<Event>): State
    requires Possible(s, run)
    decreases |run|
  {
    if run == [] then s else After(Step(s, run[0]), run[1..])
  }

  /* ---- what every interleaving keeps ---- */

  predicate Holds(s: State, t: nat, block: nat) {
    t < |s.threads| && block in s.threads[t].held
  }

  /** A bit is set exactly while one thread holds the block. */
  ghost predicate Exclusive(s: State) {
    && (forall t: nat, b: nat :: Holds(s, t, b) ==> b < |s.bits| && s.bits[b])
    && (forall t: nat, u: nat, b: nat :: Holds(s, t, b) && Holds(s, u, b) ==> t == u)
    && (forall b: nat :: b < |s.bits| && s.bits[b] ==> exists t: nat :: Holds(s, t, b))
  }

  ghost predicate SleepsOnClear(s: State, t: nat) {
    && t < |s.threads| && s.threads[t].place.Asleep?
    && (s.threads[t].place.block < |s.bits| ==> !s.bits[s.threads[t].place.block])
  }

  ghost predicate WillNotify(s: State, u: nat) {
    u < |s.threads| && s.threads[u].place == Notifying
  }

  /** No wake-up is lost: whoever sleeps on a clear bit has a notification coming. */
  ghost predicate NoLostWakeUp(s: State) {
    forall t: nat :: SleepsOnClear(s, t) ==> exists u: nat :: WillNotify(s, u)
  }

  lemma HoldsAfter(s: State, e: Event, t: nat, block: nat)
    requires Enabled(s, e)
    ensures Holds(Step(s, e), t, block) <==>
            || (Holds(s, t, block) && e != Unlock(t, block))
            || (t == e.t && e.Try? && s.threads[t].place.block == block && block < |s.bits| && !s.bits[block])
  {
  }

  lemma StepExclusive(s: State, e: Event)
    requires Enabled(s, e) && Exclusive(s)
    ensures Exclusive(Step(s, e))
  {
    hide Step;
    var s' := Step(s, e);
    forall t: nat, b: nat ensures Holds(s', t, b) <==>
            || (Holds(s, t, b) && e != Unlock(t, b))
            || (t == e.t && e.Try? && s.threads[t].place.block == b && b < |s.bits| && !s.bits[b])
    {
      HoldsAfter(s, e, t, b);
    }
    BitsAfter(s, e);
    forall b | 0 <= b < |s'.bits| && s'.bits[b] ensures exists t: nat :: Holds(s', t, b) {
      if s.bits[b] {
        var t: nat :| Holds(s, t, b);
        assert Holds(s', t, b);
      } else {
        assert Holds(s', e.t, b);
      }
    }
  }

  lemma BitsAfter(s: State, e: Event)
    requires Enabled(s, e)
    ensures var s' := Step(s, e);
            |s'.bits| == |s.bits| && forall b :: 0 <= b < |s.bits| ==>
              (s'.bits[b] <==> if e.Unlock? && e.block == b then false
                               else s.bits[b] || (e.Try? && s.threads[e.t].place.block == b))
  {
  }

  lemma StepNoLostWakeUp(s: State, e: Event)
    requires Enabled(s, e) && NoLostWakeUp(s)
    ensures NoLostWakeUp(Step(s, e))
  {
    var s' := Step(s, e);
    forall t | SleepsOnClear(s', t) ensures exists u: nat :: WillNotify(s', u) {
      if e.Unlock? {
        assert WillNotify(s', e.t);
      } else {
        assert t != e.t && SleepsOnClear(s, t);
        var u: nat :| WillNotify(s, u);
        assert WillNotify(s', u);
      }
    }
  }

  /** Safety: whatever the threads do, at every moment at most one holds a block, and none sleeps
      through the release it waits for. */
  lemma {:induction false} RunSafe(s: State, run: seq<Event>)
    requires Possible(s, run) && Exclusive(s) && NoLostWakeUp(s)
    ensures Exclusive(After(s, run)) && NoLostWakeUp(After(s, run))
    decreases |run|
  {
    if run != [] {
      StepExclusive(s, run[0]);
      StepNoLostWakeUp(s, run[0]);
      RunSafe(Step(s, run[0]), run[1..]);
    }
  }

  lemma StartSafe(blocks: nat, threads: nat, run: seq<Event>)
    requires Possible(Start(blocks, threads), run)
    ensures Exclusive(After(Start(blocks, threads), run)) && NoLostWakeUp(After(Start(blocks, threads), run))
  {
    RunSafe(Start(blocks, threads), run);
  }

  /** Nobody who waits for a free block is stuck: there are steps that lead the sleeper to it. */
  lemma SleeperCanProceed(s: State, t: nat) returns (run: seq<Event>)
    requires Exclusive(s) && NoLostWakeUp(s) && SleepsOnClear(s, t) && s.threads[t].place.block < |s.bits|
    ensures Possible(s, run) && Holds(After(s, run), t, s.threads[t].place.block)
    ensures forall i :: 0 <= i < |run| ==> !run[i].Wake?
  {
    var u: nat :| WillNotify(s, u);
    var s1 := Step(s, Notify(u));
    var s2 := Step(s1, Test(t));
    var s3 := Step(s2, Try(t));
    assert After(s3, []) == s3;
    assert After(s2, [Try(t)]) == s3 by {
      assert [Try(t)][1..] == [];
    }
    assert After(s1, [Test(t), Try(t)]) == s3 by {
      assert [Test(t), Try(t)][1..] == [Try(t)];
    }
    run := [Notify(u), Test(t), Try(t)];
    assert run[1..] == [Test(t), Try(t)];
  }

  /* ---- what a caller sees ---- */

  /** What a thread observes: that it calls for a block, that a call returns, with the block or because
      there is no such block, and that it gives a block back. */
  datatype Observation =
    | Called(t: nat, block: nat)
    | Locked(t: nat, block: nat)
    | Refused(t: nat, block: nat)
    | Unlocked(t: nat, block: nat)

  function Observe(s: State, e: Event): seq<Observation>
    requires Enabled(s, e)
  {
    match e
    case Lock(t, block) => [Called(t, block)]
    case Try(t) =>
      var block := s.threads[t].place.block;
      if |s.bits| <= block then [Refused(t, block)] else if s.bits[block] then [] else [Locked(t, block)]
    case Test(t) =>
      var block := s.threads[t].place.block;
      if |s.bits| <= block then [Refused(t, block)] else []
    case Unlock(t, block) => [Unlocked(t, block)]
    case _ => []
  }

  function Trace(s: State, run: seq<Event>): seq<Observation>
    requires Possible(s, run)
    decreases |run|
  {
    if run == [] then [] else Observe(s, run[0]) + Trace(Step(s, run[0]), run[1..])
  }

  /** The sequential lock: from this owner on, threads take the block in turns, and each gives it back
      before the next one gets it. */
  predicate InTurns(owners: map<nat, nat>, trace: seq<Observation>)
    decreases |trace|
  {
    if trace == [] then true
    else
      match trace[0]
      case Locked(t, b) => b !in owners && InTurns(owners[b := t], trace[1..])
      case Unlocked(t, b) => b in owners && owners[b] == t && InTurns(owners - {b}, trace[1..])
      case _ => InTurns(owners, trace[1..])
  }

  ghost predicate Owns(s: State, owners: map<nat, nat>) {
    && (forall t: nat, b: nat :: Holds(s, t, b) ==> b in owners && owners[b] == t)
    && (forall b: nat :: b in owners ==> Holds(s, owners[b], b))
  }

  function NextOwners(s: State, e: Event, owners: map<nat, nat>): map<nat, nat>
    requires Enabled(s, e)
  {
    match e
    case Try(t) =>
      var block := s.threads[t].place.block;
      if block < |s.bits| && !s.bits[block] then owners[block := t] else owners
    case Unlock(t, b) => owners - {b}
    case _ => owners
  }

  lemma OwnsNext(s: State, e: Event, owners: map<nat, nat>)
    requires Enabled(s, e) && Exclusive(s) && Owns(s, owners)
    ensures Owns(Step(s, e), NextOwners(s, e, owners))
  {
    var s', owners' := Step(s, e), NextOwners(s, e, owners);
    forall t: nat, b: nat | Holds(s', t, b) ensures b in owners' && owners'[b] == t {
      HoldsAfter(s, e, t, b);
      assert e.Unlock? ==> Holds(s, e.t, e.block);
      hide Step;
      assert Holds(s, t, b) ==> b in owners && owners[b] == t;
    }
    forall b: nat | b in owners' ensures Holds(s', owners'[b], b) {
      HoldsAfter(s, e, owners'[b], b);
      hide Step;
      assert b in owners ==> Holds(s, owners[b], b);
    }
  }

  /** What is observed in one step follows the sequential lock. */
  lemma ObservedInTurn(s: State, e: Event, owners: map<nat, nat>, rest: seq<Observation>)
    requires Enabled(s, e) && Exclusive(s) && Owns(s, owners)
    requires InTurns(NextOwners(s, e, owners), rest)
    ensures InTurns(owners, Observe(s, e) + rest)
  {
    var seen := Observe(s, e);
    if seen == [] {
      assert seen + rest == rest;
    } else {
      assert (seen + rest)[0] == seen[0] && (seen + rest)[1..] == rest;
      assert InTurns(owners, seen + rest) <==> InTurns(owners, [seen[0]] + rest);
      assert e.Unlock? ==> Holds(s, e.t, e.block);
      var block := seen[0].block;
      assert block in owners ==> Holds(s, owners[block], block);
    }
  }

  /** Every interleaving behaves, for its callers, like the sequential lock. */
  lemma {:induction false} RunInTurns(s: State, run: seq<Event>, owners: map<nat, nat>)
    requires Possible(s, run) && Exclusive(s) && Owns(s, owners)
    ensures InTurns(owners, Trace(s, run))
    decreases |run|
  {
    hide Exclusive, Owns;
    if run != [] {
      var e, s' := run[0], Step(s, run[0]);
      StepExclusive(s, e);
      OwnsNext(s, e, owners);
      RunInTurns(s', run[1..], NextOwners(s, e, owners));
      ObservedInTurn(s, e, owners, Trace(s', run[1..]));
    }
  }

  /* ---- calls and their answers ---- */

  /** The thread has called for the block, and the call has not returned yet. */
  predicate Waiting(s: State, t: nat, block: nat) {
    && t < |s.threads|
    && var place := s.threads[t].place;
       place == Trying(block) || place == Testing(block) || place == Asleep(block)
  }

  /** A call for a block ends in one way: the thread gets the block. */
  lemma CallEnds(s: State, e: Event, t: nat, block: nat)
    requires Enabled(s, e) && Waiting(s, t, block) && block < |s.bits|
    ensures var s' := Step(s, e);
            Waiting(s', t, block) ||
            (Observe(s, e) == [Locked(t, block)] && Holds(s', t, block) && s'.threads[t].place == Outside)
  {
  }

  /** When the thread waits no more for the first time, its call has returned and it holds the block. */
  predicate ReturnsHolding(s: State, run: seq<Event>, t: nat, block: nat)
    requires Possible(s, run)
    decreases |run|
  {
    run == [] ||
    var s' := Step(s, run[0]);
    if Waiting(s', t, block) then ReturnsHolding(s', run[1..], t, block)
    else Holds(s', t, block) && s'.threads[t].place == Outside
  }

  /** Over every run, a call for a block does not return without it. */
  lemma {:induction false} CallReturns(s: State, run: seq<Event>, t: nat, block: nat)
    requires Possible(s, run) && Waiting(s, t, block) && block < |s.bits|
    ensures ReturnsHolding(s, run, t, block)
    decreases |run|
  {
    if run != [] {
      CallEnds(s, run[0], t, block);
      if Waiting(Step(s, run[0]), t, block) {
        CallReturns(Step(s, run[0]), run[1..], t, block);
      }
    }
  }

  /** Under the lock's invariant an attempt gets the block exactly if nobody holds it, and a test sends
      the thread to sleep exactly if somebody does. */
  lemma AttemptsSucceed(s: State, t: nat, block: nat)
    requires Exclusive(s) && t < |s.threads| && block < |s.bits|
    ensures s.threads[t].place == Trying(block) ==>
              (Holds(Step(s, Try(t)), t, block) && Step(s, Try(t)).threads[t].place == Outside
               <==> forall u: nat :: !Holds(s, u, block))
    ensures s.threads[t].place == Testing(block) ==>
              (Step(s, Test(t)).threads[t].place == Asleep(block) <==> exists u: nat :: Holds(s, u, block))
  {
  }

  /** Giving a block back frees it, wakes everybody, and returns. */
  lemma UnlockReleases(s: State, t: nat, block: nat)
    requires Exclusive(s) && Holds(s, t, block) && s.threads[t].place == Outside
    ensures var s1 := Step(s, Unlock(t, block));
            && (forall u: nat :: !Holds(s1, u, block)) && !s1.bits[block] && s1.threads[t].place == Notifying
            && (forall u: nat, b: nat :: Holds(s1, u, b) <==> Holds(s, u, b) && b != block)
            && var s2 := Step(s1, Notify(t));
               && s2.threads[t].place == Outside && forall u :: 0 <= u < |s2.threads| ==> !s2.threads[u].place.Asleep?
  {
    var s1 := Step(s, Unlock(t, block));
    forall u: nat, b: nat
      ensures Holds(s1, u, b) <==> Holds(s, u, b) && b != block
    {
      assert Holds(s, u, block) ==> u == t;
    }
  }

  /** Threads wait for the blocks that they have called for, and for nothing else. */
  ghost predicate Pends(s: State, pending: map<nat, nat>) {
    forall t: nat, b: nat :: Waiting(s, t, b) <==> t in pending && pending[t] == b
  }

  function NextPending(pending: map<nat, nat>, o: Observation): map<nat, nat> {
    match o
    case Called(t, b) => pending[t := b]
    case Unlocked(_, _) => pending
    case _ => pending - {o.t}
  }

  function PendingAfter(pending: map<nat, nat>, trace: seq<Observation>): map<nat, nat>
    decreases |trace|
  {
    if trace == [] then pending else PendingAfter(NextPending(pending, trace[0]), trace[1..])
  }

  /** A call is answered by what was asked for: the block, or the refusal of a block that does not exist.
      In between the thread does nothing else. */
  predicate Fitting(blocks: nat, pending: map<nat, nat>, o: Observation) {
    match o
    case Called(t, b) => t !in pending
    case Unlocked(t, b) => t !in pending
    case Locked(t, b) => t in pending && pending[t] == b && b < blocks
    case Refused(t, b) => t in pending && pending[t] == b && blocks <= b
  }

  predicate Answered(blocks: nat, pending: map<nat, nat>, trace: seq<Observation>)
    decreases |trace|
  {
    trace == [] ||
    (Fitting(blocks, pending, trace[0]) && Answered(blocks, NextPending(pending, trace[0]), trace[1..]))
  }

  lemma PendsNext(s: State, e: Event, pending: map<nat, nat>)
    requires Enabled(s, e) && Pends(s, pending)
    ensures Pends(Step(s, e), PendingAfter(pending, Observe(s, e)))
    ensures Answered(|s.bits|, pending, Observe(s, e))
  {
    var (s', seen) := (Step(s, e), Observe(s, e));
    var place := s.threads[e.t].place;
    assert place.Outside? || place.Notifying? || Waiting(s, e.t, place.block);
    assert e.t in pending ==> Waiting(s, e.t, pending[e.t]);
    if seen != [] {
      assert seen[1..] == [];
      assert Fitting(|s.bits|, pending, seen[0]);
    }
    forall t: nat, b: nat
      ensures Waiting(s', t, b) <==> t in PendingAfter(pending, seen) && PendingAfter(pending, seen)[t] == b
    {
      assert Waiting(s, t, b) <==> t in pending && pending[t] == b;
    }
  }

  lemma {:induction false} AnsweredFirst(blocks: nat, pending: map<nat, nat>, first: seq<Observation>,
                                         rest: seq<Observation>)
    requires |first| <= 1 && Answered(blocks, pending, first)
    requires Answered(blocks, PendingAfter(pending, first), rest)
    ensures Answered(blocks, pending, first + rest)
    ensures PendingAfter(pending, first + rest) == PendingAfter(PendingAfter(pending, first), rest)
  {
    if first == [] {
      assert first + rest == rest;
    } else {
      assert (first + rest)[0] == first[0] && (first + rest)[1..] == rest;
      assert first[1..] == [];
      assert PendingAfter(pending, first) == NextPending(pending, first[0]);
    }
  }

  /** Over every run: a thread that has called for a block waits until the trace shows that it got it. */
  lemma {:induction false} RunAnswered(s: State, run: seq<Event>, pending: map<nat, nat>)
    requires Possible(s, run) && Pends(s, pending)
    ensures Answered(|s.bits|, pending, Trace(s, run))
    ensures Pends(After(s, run), PendingAfter(pending, Trace(s, run)))
    decreases |run|
  {
    hide Pends, Answered;
    if run == [] {
      NothingAnswered(|s.bits|, pending);
    } else {
      var e, s' := run[0], Step(s, run[0]);
      PendsNext(s, e, pending);
      RunAnswered(s', run[1..], PendingAfter(pending, Observe(s, e)));
      AnsweredFirst(|s.bits|, pending, Observe(s, e), Trace(s', run[1..]));
    }
  }

  lemma NothingAnswered(blocks: nat, pending: map<nat, nat>)
    ensures Answered(blocks, pending, [])
  {
  }

  /** So from the start, whoever has not got what it called for is still waiting for it, whoever is
      not waiting has had an answer, and no one holds a block without having been given it. */
  lemma StartAnswered(blocks: nat, threads: nat, run: seq<Event>, t: nat, block: nat)
    requires Possible(Start(blocks, threads), run)
    ensures var (s, trace) := (Start(blocks, threads), Trace(Start(blocks, threads), run));
            && Answered(blocks, map[], trace)
            && var pending := PendingAfter(map[], trace);
               (Waiting(After(s, run), t, block) <==> t in pending && pending[t] == block)
  {
    var s := Start(blocks, threads);
    assert Pends(s, map[]);
    RunAnswered(s, run, map[]);
    hide Step;
    assert Pends(After(s, run), PendingAfter(map[], Trace(s, run)));
  }
}
