/**
 The interposer's bounded emit queue
 (crates/running-process-probe-interposer-linux/src/lib.rs).

 Hook threads try the queue's lock once, and give their line up if it is taken;
 one drain thread takes lines off the front and writes them. The counter
 `EMIT_PENDING` is changed by separate atomic instructions, some of them outside
 the lock. Every access to shared memory is a step of its own here, and a run
 interleaves the steps of any number of producers with the drain thread's.
 */
module EmitQueue {

  type Line = string

  const MAX_LINES := 4096

  /** The counter is a machine word, so its arithmetic wraps. */
  const WORD := 0x1_0000_0000_0000_0000

  function WrappingAdd(n: nat): nat {
    if n + 1 == WORD then 0 else n + 1
  }

  function WrappingSub(n: nat): nat {
    if n == 0 then WORD - 1 else n - 1
  }

  /** Where the producer inside the critical section is. */
  datatype ProducerPc =
    | Entered   // the lock is taken, the length not yet looked at
    | Evicted   // the oldest line is popped, the counter not yet lowered
    | Room      // there is room for the line
    | Pushed    // the line is queued, the counter not yet raised
    | Counted   // the counter is raised, the drain not yet notified
    | Notified  // only the unlock is left

  datatype Lock =
    | Free
    | HeldByDrain
    | HeldByProducer(producer: nat, line: Line, pc: ProducerPc)

  datatype DrainPc =
    | Wanting                // about to lock, or woken and about to relock
    | Looking                // holds the lock, queue not yet looked at
    | Waiting                // parked on the condition variable
    | Taken(line: Line)      // popped a line, still holds the lock
    | Writing(line: Line)    // released the lock, line not yet written
    | Wrote                  // line written, counter not yet lowered

  /** `accepted`, `written` and `dropped` are histories: lines pushed, lines that
      reached stderr, and lines evicted from a full queue. */
  datatype State = State(
    queue: seq<Line>, pending: nat, lock: Lock, drain: DrainPc,
    accepted: seq<Line>, written: seq<Line>, dropped: seq<Line>)

  const Init := State([], 0, Free, Wanting, [], [], [])

  datatype Step =
    | TryLock(producer: nat, line: Line)
    | CheckRoom
    | CountEviction
    | Push
    | CountPush
    | Notify
    | Unlock
    | DrainLock
    | DrainPop
    | DrainPark
    | DrainRelease
    | SpuriousWakeup
    | DrainWrite
    | CountWrite

  predicate ProducerAt(s: State, pc: ProducerPc) {
    s.lock.HeldByProducer? && s.lock.pc == pc
  }

  predicate Enabled(s: State, step: Step) {
    match step
    case TryLock(_, _) => true
    case CheckRoom => ProducerAt(s, Entered)
    case CountEviction => ProducerAt(s, Evicted)
    case Push => ProducerAt(s, Room)
    case CountPush => ProducerAt(s, Pushed)
    case Notify => ProducerAt(s, Counted)
    case Unlock => ProducerAt(s, Notified)
    case DrainLock => s.drain.Wanting? && s.lock.Free?
    case DrainPop => s.drain.Looking? && s.queue != []
    case DrainPark => s.drain.Looking? && s.queue == []
    case DrainRelease => s.drain.Taken?
    case SpuriousWakeup => s.drain.Waiting?
    case DrainWrite => s.drain.Writing?
    case CountWrite => s.drain.Wrote?
  }

  function Apply(s: State, step: Step): State
    requires Enabled(s, step)
  {
    match step
    case TryLock(producer, line) =>
      if s.lock.Free? then s.(lock := HeldByProducer(producer, line, Entered)) else s
    case CheckRoom =>
      if |s.queue| >= MAX_LINES then
        s.(queue := s.queue[1..], dropped := s.dropped + [s.queue[0]], lock := s.lock.(pc := Evicted))
      else
        s.(lock := s.lock.(pc := Room))
    case CountEviction => s.(pending := WrappingSub(s.pending), lock := s.lock.(pc := Room))
    case Push =>
      s.(queue := s.queue + [s.lock.line], accepted := s.accepted + [s.lock.line],
         lock := s.lock.(pc := Pushed))
    case CountPush => s.(pending := WrappingAdd(s.pending), lock := s.lock.(pc := Counted))
    case Notify =>
      s.(drain := if s.drain.Waiting? then Wanting else s.drain, lock := s.lock.(pc := Notified))
    case Unlock => s.(lock := Free)
    case DrainLock => s.(lock := HeldByDrain, drain := Looking)
    case DrainPop => s.(queue := s.queue[1..], drain := Taken(s.queue[0]))
    case DrainPark => s.(lock := Free, drain := Waiting)
    case DrainRelease => s.(lock := Free, drain := Writing(s.drain.line))
    case SpuriousWakeup => s.(drain := Wanting)
    case DrainWrite => s.(written := s.written + [s.drain.line], drain := Wrote)
    case CountWrite => s.(pending := WrappingSub(s.pending), drain := Wanting)
  }

  ghost predicate IsRun(states: seq<State>, steps: seq<Step>) {
    && |states| == |steps| + 1
    && states[0] == Init
    && forall i :: 0 <= i < |steps| ==>
         Enabled(states[i], steps[i]) && states[i + 1] == Apply(states[i], steps[i])
  }

  // ------------------------------------------------------------- invariants

  /** `whole` is `a` and `b` shuffled together, each in its own order. */
  ghost predicate Interleaves(whole: seq<Line>, a: seq<Line>, b: seq<Line>)
    decreases |whole|
  {
    if whole == [] then a == [] && b == []
    else
      var n := |whole| - 1;
      || (a != [] && a[|a| - 1] == whole[n] && Interleaves(whole[..n], a[..|a| - 1], b))
      || (b != [] && b[|b| - 1] == whole[n] && Interleaves(whole[..n], a, b[..|b| - 1]))
  }

  ghost predicate IsSubsequence(a: seq<Line>, whole: seq<Line>) {
    exists b :: Interleaves(whole, a, b)
  }

  /** Lines the drain has taken and not yet written. */
  function Unwritten(s: State): seq<Line> {
    if s.drain.Taken? || s.drain.Writing? then [s.drain.line] else []
  }

  /** Lines the drain has taken and not yet counted off. */
  function InFlight(s: State): nat {
    if s.drain.Taken? || s.drain.Writing? || s.drain.Wrote? then 1 else 0
  }

  /** Lines accepted and no longer queued. */
  function Departed(s: State): seq<Line>
    requires |s.queue| <= |s.accepted|
  {
    s.accepted[..|s.accepted| - |s.queue|]
  }

  ghost predicate CounterAgrees(s: State) {
    s.pending + (if ProducerAt(s, Pushed) then 1 else 0)
    == |s.queue| + InFlight(s) + (if ProducerAt(s, Evicted) then 1 else 0)
  }

  /** The queue is the newest part of what was accepted, and everything older was
      taken by the drain or evicted. */
  ghost predicate NothingInvented(s: State) {
    && |s.queue| <= |s.accepted|
    && s.queue == s.accepted[|s.accepted| - |s.queue|..]
    && Interleaves(Departed(s), s.written + Unwritten(s), s.dropped)
  }

  /** The bound, who holds the lock, and the counter. */
  ghost predicate Control(s: State) {
    && |s.queue| <= MAX_LINES
    && (ProducerAt(s, Evicted) || ProducerAt(s, Room) ==> |s.queue| < MAX_LINES)
    && (ProducerAt(s, Pushed) || ProducerAt(s, Counted) ==> s.queue != [] && s.queue[|s.queue| - 1] == s.lock.line)
    && (s.lock.HeldByDrain? <==> s.drain.Looking? || s.drain.Taken?)
    && (s.drain.Waiting? ==> s.queue == [] || ProducerAt(s, Pushed) || ProducerAt(s, Counted))
    && CounterAgrees(s)
  }

  ghost predicate Inv(s: State) {
    Control(s) && NothingInvented(s)
  }

  lemma InterleavesExtend(whole: seq<Line>, a: seq<Line>, b: seq<Line>, x: Line)
    requires Interleaves(whole, a, b)
    ensures Interleaves(whole + [x], a + [x], b)
    ensures Interleaves(whole + [x], a, b + [x])
  {
    assert (whole + [x])[..|whole|] == whole;
    assert (a + [x])[..|a|] == a;
    assert (b + [x])[..|b|] == b;
  }

  /** The front line leaving the queue moves the boundary by that one line. */
  lemma DepartedGrows(s: State, rest: State)
    requires NothingInvented(s) && s.queue != []
    requires rest.queue == s.queue[1..] && rest.accepted == s.accepted
    ensures |rest.queue| <= |rest.accepted|
    ensures rest.queue == rest.accepted[|rest.accepted| - |rest.queue|..]
    ensures Departed(rest) == Departed(s) + [s.queue[0]]
  {
  }

  lemma EvictionKeepsNothingInvented(s: State, t: State)
    requires NothingInvented(s) && s.queue != []
    requires t == s.(queue := s.queue[1..], dropped := s.dropped + [s.queue[0]], lock := t.lock)
    ensures NothingInvented(t)
  {
    DepartedGrows(s, t);
    InterleavesExtend(Departed(s), s.written + Unwritten(s), s.dropped, s.queue[0]);
  }

  lemma TakingKeepsNothingInvented(s: State, t: State)
    requires NothingInvented(s) && s.queue != [] && Unwritten(s) == []
    requires t == s.(queue := s.queue[1..], drain := Taken(s.queue[0]))
    ensures NothingInvented(t)
  {
    DepartedGrows(s, t);
    InterleavesExtend(Departed(s), s.written, s.dropped, s.queue[0]) by {
      assert s.written + Unwritten(s) == s.written;
    }
  }

  lemma PushKeepsNothingInvented(s: State, t: State, line: Line)
    requires NothingInvented(s)
    requires t.queue == s.queue + [line] && t.accepted == s.accepted + [line]
    requires t.written == s.written && t.drain == s.drain && t.dropped == s.dropped
    ensures NothingInvented(t)
  {
    assert Departed(t) == Departed(s);
  }

  /** Moving a taken line on to being written changes nothing here. */
  lemma SameLinesKeepNothingInvented(s: State, t: State)
    requires NothingInvented(s) && t.queue == s.queue && t.accepted == s.accepted && t.dropped == s.dropped
    requires t.written + Unwritten(t) == s.written + Unwritten(s)
    ensures NothingInvented(t)
  {
  }

  /** All steps but evicting, taking and pushing. */
  predicate MovesNoLine(s: State, step: Step) {
    !(step.CheckRoom? && |s.queue| >= MAX_LINES) && !step.DrainPop? && !step.Push?
  }

  lemma OtherStepsMoveNoLine(s: State, step: Step)
    requires Enabled(s, step) && MovesNoLine(s, step)
    ensures var t := Apply(s, step);
            && t.queue == s.queue && t.accepted == s.accepted && t.dropped == s.dropped
            && t.written + Unwritten(t) == s.written + Unwritten(s)
  {
  }

  lemma StepKeepsNothingInvented(s: State, step: Step)
    requires Control(s) && NothingInvented(s) && Enabled(s, step)
    ensures NothingInvented(Apply(s, step))
  {
    var t := Apply(s, step);
    if MovesNoLine(s, step) {
      OtherStepsMoveNoLine(s, step);
      SameLinesKeepNothingInvented(s, t);
    } else if step.CheckRoom? {
      EvictionKeepsNothingInvented(s, t);
    } else if step.DrainPop? {
      TakingKeepsNothingInvented(s, t);
    } else {
      PushKeepsNothingInvented(s, t, s.lock.line);
    }
  }

  lemma StepKeepsControl(s: State, step: Step)
    requires Control(s) && Enabled(s, step)
    ensures Control(Apply(s, step))
  {
  }

  lemma StepKeepsInv(s: State, step: Step)
    requires Inv(s) && Enabled(s, step)
    ensures Inv(Apply(s, step))
  {
    StepKeepsControl(s, step);
    StepKeepsNothingInvented(s, step);
  }

  lemma InitHoldsInv()
    ensures Inv(Init)
  {
    assert Departed(Init) == [] && Init.written + Unwritten(Init) == [];
  }

  lemma RunStepKeepsInv(states: seq<State>, steps: seq<Step>, i: nat)
    requires IsRun(states, steps) && i < |steps| && Inv(states[i])
    ensures Inv(states[i + 1])
  {
    StepKeepsInv(states[i], steps[i]);
  }

  lemma {:induction false} RunKeepsInv(states: seq<State>, steps: seq<Step>, i: nat)
    requires IsRun(states, steps) && i <= |steps|
    ensures Inv(states[i])
  {
    if i == 0 {
      InitHoldsInv();
    } else {
      RunKeepsInv(states, steps, i - 1);
      RunStepKeepsInv(states, steps, i - 1);
    }
  }

  // ----------------------------------------------------------- main results

  /** At every point of every run the queue is within its bound; the counter is
      queued plus in-flight lines whenever no producer is between its two updates,
      and never off by more than the one line that producer is moving. */
  lemma QueueAndCounter(states: seq<State>, steps: seq<Step>, i: nat)
    requires IsRun(states, steps) && i <= |steps|
    ensures |states[i].queue| <= MAX_LINES
    ensures !states[i].lock.HeldByProducer? ==>
              states[i].pending == |states[i].queue| + InFlight(states[i])
    ensures |states[i].queue| + InFlight(states[i]) - 1 <= states[i].pending
         <= |states[i].queue| + InFlight(states[i]) + 1
  {
    RunKeepsInv(states, steps, i);
  }

  lemma CountingStep(s: State, step: Step)
    requires Inv(s) && Enabled(s, step)
    ensures step.CountEviction? || step.CountWrite? ==>
              s.pending >= 1 && Apply(s, step).pending == s.pending - 1
    ensures step.CountPush? ==> Apply(s, step).pending == s.pending + 1
  {
  }

  /** No step of any run wraps the counter: it moves by exactly one. */
  lemma CounterNeverWraps(states: seq<State>, steps: seq<Step>, i: nat)
    requires IsRun(states, steps) && i < |steps|
    ensures steps[i].CountEviction? || steps[i].CountWrite? ==>
              states[i].pending >= 1 && states[i + 1].pending == states[i].pending - 1
    ensures steps[i].CountPush? ==> states[i + 1].pending == states[i].pending + 1
  {
    RunKeepsInv(states, steps, i);
    CountingStep(states[i], steps[i]);
  }

  /** What was accepted is, in order, what has left the queue and then the queue;
      what has left is exactly the written line, the line being written and the
      evicted ones, shuffled. So the written lines are a subsequence. */
  lemma NoLineLostOrReordered(states: seq<State>, steps: seq<Step>, i: nat)
    requires IsRun(states, steps) && i <= |steps|
    ensures |states[i].queue| <= |states[i].accepted|
    ensures states[i].accepted == Departed(states[i]) + states[i].queue
    ensures Interleaves(Departed(states[i]), states[i].written + Unwritten(states[i]), states[i].dropped)
    ensures IsSubsequence(states[i].written, states[i].accepted)
  {
    RunKeepsInv(states, steps, i);
    WrittenInOrder(states[i]);
  }

  lemma WrittenInOrder(s: State)
    requires NothingInvented(s)
    ensures s.accepted == Departed(s) + s.queue
    ensures IsSubsequence(s.written, s.accepted)
  {
    var rest := DropTail(Departed(s), s.written, Unwritten(s), s.dropped);
    var others := WithTail(Departed(s), s.queue, s.written, rest);
    assert s.accepted == Departed(s) + s.queue;
    assert Interleaves(s.accepted, s.written, others);
  }

  /** Shortening one side of a shuffle: its tail moves to the other side. */
  lemma {:induction false} DropTail(whole: seq<Line>, a: seq<Line>, tail: seq<Line>, b: seq<Line>)
    returns (rest: seq<Line>)
    requires Interleaves(whole, a + tail, b)
    ensures Interleaves(whole, a, rest)
    decreases |whole|
  {
    if tail == [] {
      assert a + tail == a;
      return b;
    }
    var n, whole' := |whole| - 1, a + tail;
    assert whole'[..|whole'| - 1] == a + tail[..|tail| - 1];
    if whole'[|whole'| - 1] == whole[n] && Interleaves(whole[..n], whole'[..|whole'| - 1], b) {
      rest := DropTail(whole[..n], a, tail[..|tail| - 1], b);
      InterleavesExtend(whole[..n], a, rest, whole[n]);
      rest := rest + [whole[n]];
    } else {
      rest := DropTail(whole[..n], a, tail, b[..|b| - 1]);
      InterleavesExtend(whole[..n], a, rest, whole[n]);
      rest := rest + [whole[n]];
    }
    assert whole[..n] + [whole[n]] == whole;
  }

  lemma {:induction false} WithTail(whole: seq<Line>, tail: seq<Line>, a: seq<Line>, b: seq<Line>)
    returns (rest: seq<Line>)
    requires Interleaves(whole, a, b)
    ensures Interleaves(whole + tail, a, rest)
    decreases |tail|
  {
    if tail == [] {
      assert whole + tail == whole;
      return b;
    }
    InterleavesExtend(whole, a, b, tail[0]);
    rest := WithTail(whole + [tail[0]], tail[1..], a, b + [tail[0]]);
    assert whole + [tail[0]] + tail[1..] == whole + tail;
  }

  /** A line is given up only to make room in a full queue, and it is the oldest one. */
  lemma EvictsOnlyWhenFull(s: State, step: Step)
    requires Enabled(s, step)
    ensures Apply(s, step).dropped == s.dropped
         || (|s.queue| >= 4096 && step.CheckRoom? && Apply(s, step).dropped == s.dropped + [s.queue[0]])
    ensures step.CheckRoom? && |s.queue| < 4096 ==> Apply(s, step).queue == s.queue && ProducerAt(Apply(s, step), Room)
  {
  }

  /** A producer that finds the lock free gets it and queues its own line next, at the end;
      one that finds it taken goes away, and nothing changes. */
  lemma FreeLockMeansQueued(s: State, producer: nat, line: Line)
    requires s.lock.Free? && |s.queue| < 4096
    ensures var t := Apply(s, TryLock(producer, line));
            && Enabled(t, CheckRoom) && Enabled(Apply(t, CheckRoom), Push)
            && var u := Apply(Apply(t, CheckRoom), Push);
               && u.queue == s.queue + [line] && u.accepted == s.accepted + [line] && Enabled(u, CountPush)
               && Apply(u, CountPush).pending == WrappingAdd(s.pending)
  {
  }

  lemma TakenLockMeansDropped(s: State, producer: nat, line: Line)
    requires !s.lock.Free?
    ensures Apply(s, TryLock(producer, line)) == s
  {
  }

  /** The drain writes the oldest line next: from a free lock it takes it, lets go of the
      lock, writes it and counts it off. */
  lemma DrainWritesOldest(s: State)
    requires s.drain.Wanting? && s.lock.Free? && s.queue != []
    ensures var t := Apply(s, DrainLock);
            && Enabled(t, DrainPop) && Enabled(Apply(t, DrainPop), DrainRelease)
            && var u := Apply(Apply(t, DrainPop), DrainRelease);
               && u.lock.Free? && u.queue == s.queue[1..] && Enabled(u, DrainWrite)
               && Apply(u, DrainWrite).written == s.written + [s.queue[0]] && Enabled(Apply(u, DrainWrite), CountWrite)
               && Apply(Apply(u, DrainWrite), CountWrite).pending == WrappingSub(s.pending)
  {
  }

  /** A parked drain never leaves a line behind: when it waits and no producer is
      inside, the queue is empty. */
  lemma NoStrandedLine(states: seq<State>, steps: seq<Step>, i: nat)
    requires IsRun(states, steps) && i <= |steps|
    requires states[i].drain.Waiting? && !states[i].lock.HeldByProducer?
    ensures states[i].queue == []
  {
    RunKeepsInv(states, steps, i);
  }

  lemma {:induction false} InterleavesLength(whole: seq<Line>, a: seq<Line>, b: seq<Line>)
    requires Interleaves(whole, a, b)
    ensures |whole| == |a| + |b|
    decreases |whole|
  {
    if whole != [] {
      var n := |whole| - 1;
      if a != [] && a[|a| - 1] == whole[n] && Interleaves(whole[..n], a[..|a| - 1], b) {
        InterleavesLength(whole[..n], a[..|a| - 1], b);
      } else {
        InterleavesLength(whole[..n], a, b[..|b| - 1]);
      }
    }
  }

  /** Every accepted line has been written or evicted. */
  ghost predicate Flushed(s: State) {
    Interleaves(s.accepted, s.written, s.dropped)
  }

  /** A zero counter and a producer that has queued its line without counting it: that
      line is the whole queue, and all lines before it are done with. */
  lemma UncountedLineIsTheOnlyOne(s: State)
    requires Inv(s) && s.pending == 0 && ProducerAt(s, Pushed)
    ensures s.queue == [s.lock.line] && s.accepted == Departed(s) + [s.lock.line]
    ensures Interleaves(Departed(s), s.written, s.dropped)
    ensures !Flushed(s)
  {
    assert s.written + Unwritten(s) == s.written;
    InterleavesLength(Departed(s), s.written, s.dropped);
    if Flushed(s) {
      InterleavesLength(s.accepted, s.written, s.dropped);
    }
  }

  /** When the exit hook reads zero, its conclusion that every accepted line has been
      written or evicted is right exactly if no producer is between queueing its line
      and counting it; and then that one line is what the hook misses. */
  lemma FlushSeesZero(states: seq<State>, steps: seq<Step>, i: nat)
    requires IsRun(states, steps) && i <= |steps|
    requires states[i].pending == 0
    ensures Flushed(states[i]) <==> !ProducerAt(states[i], Pushed)
    ensures states[i].queue == [] && Unwritten(states[i]) == [] <==> !ProducerAt(states[i], Pushed)
    ensures ProducerAt(states[i], Pushed) ==>
              exists left :: states[i].accepted == left + states[i].queue && states[i].queue == [states[i].lock.line]
                          && Interleaves(left, states[i].written, states[i].dropped)
  {
    RunKeepsInv(states, steps, i);
    var s := states[i];
    if ProducerAt(s, Pushed) {
      UncountedLineIsTheOnlyOne(s);
    } else {
      assert Departed(s) == s.accepted;
      assert s.written + Unwritten(s) == s.written;
    }
  }

  /** And a run gets there: the counter is zero while the line is in the queue. */
  lemma ZeroCounterMissesALine(line: Line) returns (states: seq<State>, steps: seq<Step>)
    ensures IsRun(states, steps) && |steps| == 3
    ensures states[3].pending == 0 && states[3].queue == [line] && !Flushed(states[3])
  {
    steps := [TryLock(0, line), CheckRoom, Push];
    var s1 := Apply(Init, steps[0]);
    var s2 := Apply(s1, steps[1]);
    var s3 := Apply(s2, steps[2]);
    states := [Init, s1, s2, s3];
    FlushSeesZero(states, steps, 3);
  }
}
