/** The cross-thread callback queue (src/Server/EventLoop.cpp:35-98, 110-115): producers and the
    loop as atomic steps in any order. A push and a swap are each under the mutex; the write to
    the eventfd, the wait and each callback are steps of their own. */
module CallbackQueue {

  type Producer = nat
  type Callback = nat

  datatype LoopPc =
    | Waiting     // in epoll_wait
    | Returned    // the wait has returned, callback_list_ is not yet swapped
    | Running     // going through the swapped batch
    | Stopped     // Loop has ended

  datatype State = State(
    list: seq<Callback>,           // callback_list_
    batch: seq<Callback>,          // the rest of to_copy_list
    executed: seq<Callback>,
    pushed: seq<Callback>,         // the log of all pushes
    writing: set<Producer>,        // producers between push and write
    edge: bool,                    // an eventfd edge that no wait has consumed
    loop: LoopPc,
    idle: nat,                     // timeout_count: waits that returned nothing, never reset
    quit: bool)                    // !is_looping_

  datatype Step =
    | Push(p: Producer, c: Callback)  // QueueINCallback up to the end of the lock
    | Write(p: Producer)              // WakeUpTargetEventLoop
    | WaitReturns(consumed: bool, empty: bool) // on any event, on the timeout, or failing
    | Swap
    | RunOne
    | EndBatch                        // and the loop condition
    | Quit

  const MAX_IDLE_WAITS := 5

  const INIT := State([], [], [], [], {}, false, Waiting, 0, false)

  predicate Enabled(s: State, a: Step) {
    match a
    case Push(p, _) => p !in s.writing
    case Write(p) => p in s.writing
    case WaitReturns(consumed, empty) => s.loop == Waiting && (empty ==> !consumed)
    case Swap => s.loop == Returned
    case RunOne => s.loop == Running && s.batch != []
    case EndBatch => s.loop == Running && s.batch == []
    case Quit => true
  }

  function Next(s: State, a: Step): State
    requires Enabled(s, a)
  {
    match a
    case Push(p, c) =>
      s.(list := s.list + [c], pushed := s.pushed + [c], writing := s.writing + {p})
    case Write(p) => s.(writing := s.writing - {p}, edge := true)
    case WaitReturns(consumed, empty) =>
      s.(loop := Returned, edge := s.edge && !consumed, idle := s.idle + if empty then 1 else 0)
    case Swap => s.(list := [], batch := s.list, loop := Running)
    case RunOne => s.(executed := s.executed + [s.batch[0]], batch := s.batch[1..])
    case EndBatch =>
      s.(loop := if s.quit || s.idle >= MAX_IDLE_WAITS then Stopped else Waiting)
    case Quit => s.(quit := true)
  }

  /** A run is a sequence of steps, each enabled where it is taken. */
  ghost predicate IsRun(s: State, steps: seq<Step>)
    decreases |steps|
  {
    steps == [] || (Enabled(s, steps[0]) && IsRun(Next(s, steps[0]), steps[1..]))
  }

  ghost function After(s: State, steps: seq<Step>): State
    requires IsRun(s, steps)
    decreases |steps|
  {
    if steps == [] then s else After(Next(s, steps[0]), steps[1..])
  }

  /** No wake-up is lost and nothing is lost, repeated or reordered. */
  predicate Inv(s: State) {
    && (s.list != [] ==> s.edge || s.writing != {} || s.loop in {Returned, Stopped})
    && s.pushed == s.executed + s.batch + s.list
    && (s.batch != [] ==> s.loop == Running)
    && (s.loop == Stopped ==> s.quit || s.idle >= MAX_IDLE_WAITS)
  }

  lemma StepKeepsInv(s: State, a: Step)
    requires Inv(s) && Enabled(s, a)
    ensures Inv(Next(s, a))
  {
    if a.RunOne? {
      assert s.batch == [s.batch[0]] + s.batch[1..];
    }
  }

  lemma {:induction false} RunKeepsInv(s: State, steps: seq<Step>)
    requires Inv(s) && IsRun(s, steps)
    ensures Inv(After(s, steps))
    decreases |steps|
  {
    if steps != [] {
      StepKeepsInv(s, steps[0]);
      RunKeepsInv(Next(s, steps[0]), steps[1..]);
    }
  }

  /** In every interleaving, while the loop runs, a queued callback has a wake-up on its way: an
      edge is pending, a producer is about to write, or the loop is about to swap. */
  lemma NoLostWakeUp(steps: seq<Step>)
    requires IsRun(INIT, steps)
    ensures var s := After(INIT, steps);
            s.list != [] && s.loop != Stopped ==>
              s.edge || s.writing != {} || s.loop == Returned
  {
    RunKeepsInv(INIT, steps);
  }

  /** Callbacks run in push order, each at most once. */
  lemma PushOrder(steps: seq<Step>)
    requires IsRun(INIT, steps)
    ensures var s := After(INIT, steps);
            s.executed + s.batch + s.list == s.pushed && s.executed <= s.pushed
  {
    RunKeepsInv(INIT, steps);
  }

  // ---------------------------------------------------------------- progress

  predicate IsLoopStep(a: Step) { !a.Push? && !a.Write? && !a.Quit? }

  function LoopSteps(steps: seq<Step>): nat
    decreases |steps|
  {
    if steps == [] then 0
    else (if IsLoopStep(steps[0]) then 1 else 0) + LoopSteps(steps[1..])
  }

  /** The steps that the loop needs at most until the first `n` pushes have run. */
  function Distance(s: State, n: nat): nat {
    if n <= |s.executed| then 0
    else if n <= |s.executed| + |s.batch| then n - |s.executed|
    else
      var wait := match s.loop
        case Running => |s.batch| + 3
        case Waiting => 2
        case Returned => 1
        case Stopped => 1;  // never made
      wait + (n - |s.executed| - |s.batch|)
  }

  /** Every step of the loop comes closer, and no producer sets it back. */
  lemma StepComesCloser(s: State, a: Step, n: nat)
    requires Inv(s) && Enabled(s, a) && n <= |s.pushed|
    ensures var d := Distance(s, n);
            Distance(Next(s, a), n) <= if IsLoopStep(a) && d > 0 then d - 1 else d
  {
  }

  /** Whatever the producers do meanwhile, all that had been pushed has run once the loop has
      made that many steps. */
  lemma {:induction false} PushedCallbacksRun(s: State, steps: seq<Step>)
    requires Inv(s) && IsRun(s, steps) && LoopSteps(steps) >= Distance(s, |s.pushed|)
    ensures s.pushed <= After(s, steps).executed
  {
    RunsOut(s, steps, |s.pushed|);
    PushedGrows(s, steps);
    RunKeepsInv(s, steps);
  }

  lemma {:induction false} RunsOut(s: State, steps: seq<Step>, n: nat)
    requires Inv(s) && IsRun(s, steps) && n <= |s.pushed|
    requires LoopSteps(steps) >= Distance(s, n)
    ensures |After(s, steps).executed| >= n
    decreases |steps|
  {
    if steps != [] {
      StepKeepsInv(s, steps[0]);
      StepComesCloser(s, steps[0], n);
      RunsOut(Next(s, steps[0]), steps[1..], n);
    }
  }

  lemma {:induction false} PushedGrows(s: State, steps: seq<Step>)
    requires IsRun(s, steps)
    ensures s.pushed <= After(s, steps).pushed
    decreases |steps|
  {
    if steps != [] { PushedGrows(Next(s, steps[0]), steps[1..]); }
  }

  /** The loop is blocked only in a wait without an edge, and then nothing is queued unless a
      producer is still to write; that write makes the edge. */
  predicate Blocked(s: State) { s.loop == Waiting && !s.edge }

  lemma BlockedMeansIdle(steps: seq<Step>)
    requires IsRun(INIT, steps)
    ensures var s := After(INIT, steps);
            && (Blocked(s) ==> s.executed + s.list == s.pushed)
            && (Blocked(s) && s.writing == {} ==> s.executed == s.pushed)
            && (forall p :: p in s.writing ==> !Blocked(Next(s, Write(p))))
  {
    RunKeepsInv(INIT, steps);
  }

  /** When a batch ends, everything that was pushed before its swap has run. */
  lemma {:induction false} BatchIsComplete(s: State, steps: seq<Step>)
    requires Inv(s) && s.loop == Returned && IsRun(Next(s, Swap), steps)
    requires forall i :: 0 <= i < |steps| ==> steps[i] != EndBatch
    requires Enabled(After(Next(s, Swap), steps), EndBatch)
    ensures s.pushed <= After(Next(s, Swap), steps).executed
  {
    StepKeepsInv(s, Swap);
    var t := Next(s, Swap);
    BatchDrains(t, steps);
    RunKeepsInv(t, steps);
    PushedGrows(t, steps);
  }

  /** Within a batch the executed and the remaining callbacks together stay the same. */
  lemma {:induction false} BatchDrains(s: State, steps: seq<Step>)
    requires s.loop == Running && IsRun(s, steps)
    requires forall i :: 0 <= i < |steps| ==> steps[i] != EndBatch
    ensures var t := After(s, steps);
            t.loop == Running && t.executed + t.batch == s.executed + s.batch
    decreases |steps|
  {
    if steps != [] {
      var t := Next(s, steps[0]);
      if steps[0].RunOne? { assert s.batch == [s.batch[0]] + s.batch[1..]; }
      assert t.executed + t.batch == s.executed + s.batch;
      forall i | 0 <= i < |steps[1..]| ensures steps[1..][i] != EndBatch {
        assert steps[1..][i] == steps[i + 1];
      }
      BatchDrains(t, steps[1..]);
    }
  }

  // ---------------------------------------------------------------- the end of the loop

  /** A loop that has ended runs nothing more, whoever pushes. */
  lemma {:induction false} StoppedRunsNothing(s: State, steps: seq<Step>)
    requires s.loop == Stopped && IsRun(s, steps)
    ensures After(s, steps).loop == Stopped && After(s, steps).executed == s.executed
    decreases |steps|
  {
    if steps != [] { StoppedRunsNothing(Next(s, steps[0]), steps[1..]); }
  }

  /** The waits of a run that returned nothing. */
  function EmptyWaits(steps: seq<Step>): nat
    decreases |steps|
  {
    if steps == [] then 0
    else (if steps[0].WaitReturns? && steps[0].empty then 1 else 0) + EmptyWaits(steps[1..])
  }

  /** The counter never passes its limit, and decides with `quit` whether the loop is over. */
  predicate Counted(s: State) {
    && s.idle <= MAX_IDLE_WAITS
    && (s.idle == MAX_IDLE_WAITS ==> s.loop != Waiting)
    && (s.loop == Stopped ==> s.quit || s.idle == MAX_IDLE_WAITS)
  }

  lemma {:induction false} RunCounts(s: State, steps: seq<Step>)
    requires Counted(s) && IsRun(s, steps)
    ensures var t := After(s, steps);
            && Counted(t) && t.idle == s.idle + EmptyWaits(steps)
            && (t.quit <==> s.quit || Quit in steps)
    decreases |steps|
  {
    if steps != [] { RunCounts(Next(s, steps[0]), steps[1..]); }
  }

  /** Over all its life a loop makes at most five waits that return nothing, whatever happens in
      between: between two rounds it has ended without Quit exactly when it has made five. */
  lemma FiveEmptyWaitsEndTheLoop(steps: seq<Step>)
    requires IsRun(INIT, steps)
    ensures EmptyWaits(steps) <= MAX_IDLE_WAITS
    ensures var s := After(INIT, steps);
            && (s.loop == Stopped ==> Quit in steps || EmptyWaits(steps) == MAX_IDLE_WAITS)
            && (s.loop == Waiting ==> EmptyWaits(steps) < MAX_IDLE_WAITS)
            && (s.loop in {Waiting, Stopped} && Quit !in steps ==>
                  (s.loop == Stopped <==> EmptyWaits(steps) == MAX_IDLE_WAITS))
  {
    RunCounts(INIT, steps);
  }

  /** The loop looks at its condition: by then Quit was called, or the waits were used up. */
  predicate EndsAt(s: State, steps: seq<Step>, j: nat)
    requires j < |steps|
  {
    && steps[j] == EndBatch
    && (s.quit || Quit in steps[..j] || s.idle + EmptyWaits(steps[..j]) >= MAX_IDLE_WAITS)
  }

  lemma EndsLater(s: State, steps: seq<Step>, j: nat)
    requires steps != [] && Enabled(s, steps[0]) && j + 1 < |steps|
    ensures EndsAt(s, steps, j + 1) <==> EndsAt(Next(s, steps[0]), steps[1..], j)
  {
    assert steps[..j + 1] == [steps[0]] + steps[1..][..j];
    assert steps[..j + 1][1..] == steps[1..][..j];
  }

  /** A loop has ended exactly when it came to the end of a batch after Quit or after its last
      empty wait. */
  lemma {:induction false} LoopEnds(s: State, steps: seq<Step>)
    requires s.loop != Stopped && IsRun(s, steps)
    ensures After(s, steps).loop == Stopped
       <==> exists j :: 0 <= j < |steps| && EndsAt(s, steps, j)
    decreases |steps|
  {
    if steps != [] {
      var t, rest := Next(s, steps[0]), steps[1..];
      assert steps[..0] == [];
      forall j | 0 < j < |steps| ensures EndsAt(s, steps, j) <==> EndsAt(t, rest, j - 1) {
        EndsLater(s, steps, j - 1);
      }
      if t.loop == Stopped {
        assert EndsAt(s, steps, 0);
        StoppedRunsNothing(t, rest);
      } else {
        LoopEnds(t, rest);
        assert !EndsAt(s, steps, 0);
        if After(s, steps).loop == Stopped {
          var j :| 0 <= j < |rest| && EndsAt(t, rest, j);
          assert EndsAt(s, steps, j + 1);
        }
      }
    }
  }

  lemma {:induction false} RunsCompose(s: State, a: seq<Step>, b: seq<Step>)
    requires IsRun(s, a) && IsRun(After(s, a), b)
    ensures IsRun(s, a + b) && After(s, a + b) == After(After(s, a), b)
    decreases |a|
  {
    if a == [] {
      assert a + b == b;
    } else {
      assert (a + b)[0] == a[0] && (a + b)[1..] == a[1..] + b;
      RunsCompose(Next(s, a[0]), a[1..], b);
    }
  }

  /** Rounds of the loop in which nothing happens. */
  function IdleRounds(k: nat): seq<Step> {
    if k == 0 then [] else [WaitReturns(false, true), Swap, EndBatch] + IdleRounds(k - 1)
  }

  lemma {:induction false} IdleRoundsCount(s: State, k: nat)
    requires s.loop == Waiting && s.list == s.batch == [] && !s.quit
    requires 0 < k && s.idle + k <= MAX_IDLE_WAITS
    ensures IsRun(s, IdleRounds(k))
    ensures After(s, IdleRounds(k)) == s.(
      idle := s.idle + k, loop := if s.idle + k == MAX_IDLE_WAITS then Stopped else Waiting)
    decreases k
  {
    var round := [WaitReturns(false, true), Swap, EndBatch];
    assert round[1..] == [Swap, EndBatch] && round[1..][1..] == [EndBatch];
    var returned := Next(s, round[0]);
    var t := Next(Next(returned, Swap), EndBatch);
    assert IsRun(Next(returned, Swap), [EndBatch]) && IsRun(returned, round[1..]);
    assert After(s, round) == t;
    if k == 1 {
      assert round + IdleRounds(0) == round;
    } else {
      IdleRoundsCount(t, k - 1);
      RunsCompose(s, round, IdleRounds(k - 1));
    }
  }

  /** What `IdleRounds` makes of a new loop: it has stopped by itself. */
  const IDLED_OUT := INIT.(idle := MAX_IDLE_WAITS, loop := Stopped)

  /** Such a run: without traffic the loop stops by itself, and a callback pushed afterwards is
      never run, however the run goes on. */
  lemma IdleWaitsStopTheLoop(p: Producer, c: Callback, more: seq<Step>)
    requires IsRun(Next(IDLED_OUT, Push(p, c)), more)
    ensures var steps := IdleRounds(MAX_IDLE_WAITS) + ([Push(p, c)] + more);
            && IsRun(INIT, steps) && Quit !in IdleRounds(MAX_IDLE_WAITS)
            && After(INIT, steps).loop == Stopped
            && After(INIT, steps).executed == [] && c in After(INIT, steps).pushed
  {
    var idle, pushed := IdleRounds(MAX_IDLE_WAITS), Next(IDLED_OUT, Push(p, c));
    IdleRoundsCount(INIT, MAX_IDLE_WAITS);
    RunCounts(INIT, idle);
    var late := [Push(p, c)] + more;
    assert late[1..] == more;
    RunsCompose(INIT, idle, late);
    StoppedRunsNothing(pushed, more);
    PushedGrows(pushed, more);
    assert c == pushed.pushed[0];
  }
}
