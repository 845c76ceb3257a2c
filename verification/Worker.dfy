/** The life cycle of a worker thread (libdevcore/Worker.cpp) as interleaved atomic steps of the
    thread and of the controller that holds `x_work`. Atomics are sequentially consistent; a weak
    compare-exchange may fail for no reason. */
module Worker {
  datatype WorkerState = Starting | Started | Stopping | Stopped | Killing

  /** Where the thread is: at the test of its outer loop, before its compare-exchange, inside
      `workLoop`, before the exchange that follows, before the one that puts `ex` back, in the loop
      that waits. */
  datatype Thread = NoThread | Test | Begin | InWorkLoop | Leave | Restore(ex: WorkerState) | Waiting | Exited

  /** What the controller holding the lock is waiting for. */
  datatype Controller = Free | AwaitStart | AwaitStop | AwaitExit | Destroyed

  datatype State = State(state: WorkerState, thread: Thread, controller: Controller)

  const INITIAL := State(Starting, NoThread, Free)

  datatype Step =
    | ThreadStep(spurious: bool)
    | StartWorking(spurious: bool)
    | TriggerStop(spurious: bool)
    | StopWorking(spurious: bool)
    | Destroy
    | Return

  /** A weak compare-exchange. */
  function Exchanged(state: WorkerState, expected: WorkerState, desired: WorkerState, spurious: bool): WorkerState {
    if state == expected && !spurious then desired else state
  }

  /** One atomic step of the thread. */
  function ThreadNext(s: State, spurious: bool): State {
    match s.thread
    case NoThread => s
    case Test => s.(thread := if s.state == Killing then Exited else Begin)
    case Begin => s.(state := Exchanged(s.state, Starting, Started, spurious), thread := InWorkLoop)
    case InWorkLoop => s.(thread := Leave)
    case Leave => s.(state := Stopped, thread := Restore(s.state))
    case Restore(ex) => s.(state := if ex == Killing || ex == Starting then ex else s.state, thread := Waiting)
    case Waiting => s.(thread := if s.state == Stopped then Waiting else Test)
    case Exited => s
  }

  predicate Enabled(s: State, step: Step) {
    match step
    case ThreadStep(_) => s.thread != NoThread && s.thread != Exited
    case Return =>
      (match s.controller
       case AwaitStart => s.state != Starting
       case AwaitStop => s.state == Stopped
       case AwaitExit => s.thread == Exited
       case _ => false)
    case _ => s.controller == Free
  }

  function Next(s: State, step: Step): State
    requires Enabled(s, step)
  {
    match step
    case ThreadStep(spurious) => ThreadNext(s, spurious)
    case StartWorking(spurious) =>
      if s.thread == NoThread then State(Starting, Test, AwaitStart)
      else s.(state := Exchanged(s.state, Stopped, Starting, spurious), controller := AwaitStart)
    case TriggerStop(spurious) =>
      if s.thread == NoThread then s else s.(state := Exchanged(s.state, Started, Stopping, spurious))
    case StopWorking(spurious) =>
      if s.thread == NoThread then s
      else s.(state := Exchanged(s.state, Started, Stopping, spurious), controller := AwaitStop)
    case Destroy =>
      if s.thread == NoThread then s.(controller := Destroyed) else s.(state := Killing, controller := AwaitExit)
    case Return => s.(controller := if s.controller == AwaitExit then Destroyed else Free)
  }

  // ----- runs -----

  /** The steps can be taken one after the other from `s`. */
  predicate IsRun(s: State, run: seq<Step>)
    decreases |run|
  {
    run == [] || (Enabled(s, run[0]) && IsRun(Next(s, run[0]), run[1..]))
  }

  function After(s: State, run: seq<Step>): State
    requires IsRun(s, run)
    decreases |run|
  {
    if run == [] then s else After(Next(s, run[0]), run[1..])
  }

  /** No compare-exchange of the thread fails without a reason. */
  predicate Faithful(run: seq<Step>) {
    forall step :: step in run && step.ThreadStep? ==> !step.spurious
  }

  /** How often the thread calls `workLoop`. */
  function Calls(s: State, run: seq<Step>): nat
    requires IsRun(s, run)
    decreases |run|
  {
    if run == [] then 0
    else (if run[0].ThreadStep? && s.thread == Begin then 1 else 0) + Calls(Next(s, run[0]), run[1..])
  }

  function ThreadSteps(run: seq<Step>): nat {
    if run == [] then 0 else (if run[0].ThreadStep? then 1 else 0) + ThreadSteps(run[1..])
  }

  lemma {:induction false} RunSplits(s: State, a: seq<Step>, b: seq<Step>)
    requires IsRun(s, a + b)
    ensures IsRun(s, a) && IsRun(After(s, a), b) && After(s, a + b) == After(After(s, a), b)
    decreases |a|
  {
    if a == [] {
      assert a + b == b;
    } else {
      assert (a + b)[0] == a[0] && (a + b)[1..] == a[1..] + b;
      RunSplits(Next(s, a[0]), a[1..], b);
    }
  }

  // ----- stopped means outside workLoop -----

  /** Only the thread stores `Stopped`, and it leaves `Waiting` only after someone replaced it. */
  predicate Outside(s: State) {
    s.state == Stopped ==> s.thread.Restore? || s.thread == Waiting
  }

  lemma {:induction false} OutsideKept(s: State, run: seq<Step>)
    requires Outside(s) && IsRun(s, run)
    ensures Outside(After(s, run))
    decreases |run|
  {
    if run != [] {
      OutsideKept(Next(s, run[0]), run[1..]);
    }
  }

  /** In every interleaving, spurious failures included. */
  lemma StoppedIsOutside(run: seq<Step>)
    requires IsRun(INITIAL, run) && After(INITIAL, run).state == Stopped
    ensures After(INITIAL, run).thread != InWorkLoop && After(INITIAL, run).thread != Begin
  {
    OutsideKept(INITIAL, run);
  }

  // ----- a kill is obeyed -----

  /** How many steps of its own a killed thread has left. */
  function Remaining(t: Thread): (n: nat)
    ensures n <= 6 && (n == 0 <==> t == NoThread || t == Exited)
  {
    match t
    case NoThread => 0
    case Exited => 0
    case Test => 1
    case Waiting => 2
    case Restore(_) => 3
    case Leave => 4
    case InWorkLoop => 5
    case Begin => 6
  }

  /** After the destructor's store: `Killing` stays stored, but for the moment it is put back. */
  predicate Killed(s: State) {
    && (s.controller == AwaitExit || s.controller == Destroyed)
    && (s.controller == AwaitExit ==> s.thread != NoThread && s.thread != Restore(Starting))
    && (s.controller == AwaitExit ==> s.state == Killing || (s.state == Stopped && s.thread == Restore(Killing)))
    && (s.controller == Destroyed ==> s.thread == NoThread || s.thread == Exited)
  }

  lemma KilledStep(s: State, step: Step)
    requires Killed(s) && Enabled(s, step)
    ensures Killed(Next(s, step))
    ensures Remaining(Next(s, step).thread) == Remaining(s.thread) - if step.ThreadStep? then 1 else 0
  {
  }

  lemma {:induction false} KilledRun(s: State, run: seq<Step>)
    requires Killed(s) && IsRun(s, run)
    ensures Killed(After(s, run))
    ensures Remaining(After(s, run).thread) == Remaining(s.thread) - ThreadSteps(run)
    ensures Calls(s, run) <= if s.thread == Begin then 1 else 0
    decreases |run|
  {
    if run != [] {
      KilledStep(s, run[0]);
      KilledRun(Next(s, run[0]), run[1..]);
    }
  }

  /** The destructor is obeyed in every interleaving, spurious failures included, unless it strikes
      just when the thread is about to put `Starting` back: its `Killing` is in place whenever the
      thread tests the state, `workLoop` is called at most once more (only if the thread was already
      past its test), and after six steps of the thread at most it has exited. */
  lemma KillIsObeyed(s: State, after: seq<Step>)
    requires IsRun(s, [Destroy] + after) && s.thread != Restore(Starting)
    ensures
      var t := After(s, [Destroy] + after);
      && (t.thread in {Test, Begin, InWorkLoop, Leave, Waiting} ==> t.state == Killing)
      && Calls(s, [Destroy] + after) <= (if s.thread == Begin then 1 else 0)
      && ThreadSteps(after) <= Remaining(s.thread) <= 6
      && (ThreadSteps(after) == Remaining(s.thread) ==> t.thread == NoThread || t.thread == Exited)
  {
    var rest := [Destroy] + after;
    assert rest[0] == Destroy && rest[1..] == after;
    KilledRun(Next(s, Destroy), after);
  }

  /** In that one situation the thread's next step always loses it. */
  lemma KillIsLost(s: State, spurious: bool)
    requires s.controller == Free && s.thread == Restore(Starting)
    ensures Next(Next(s, Destroy), ThreadStep(spurious)) == State(Starting, Waiting, AwaitExit)
  {
  }

  // ----- without spurious failures -----

  /** What else holds then: inside `workLoop` the state is no longer `Starting`, so it is never put
      back. */
  predicate Tight(s: State) {
    && Outside(s)
    && (s.thread == InWorkLoop || s.thread == Leave ==> s.state != Starting)
    && (s.thread.Restore? ==> s.thread.ex != Starting && s.thread.ex != Stopped)
    && (s.thread == Restore(Killing) ==> s.controller == AwaitExit)
    && (s.state == Killing ==> s.controller == AwaitExit || s.controller == Destroyed)
    && (s.controller == Destroyed ==> s.thread == NoThread || s.thread == Exited)
    && (s.thread == Exited ==> s.state == Killing)
    && (s.thread.Restore? || s.thread == Waiting ==> s.state != Started && s.state != Stopping)
    && (s.thread == Test || s.thread == Begin ==> s.state == Starting || s.state == Killing)
    && (s.state == Starting && s.thread != NoThread ==> s.controller == AwaitStart)
    && (s.thread == NoThread ==> s.state == Starting)
  }

  lemma TightStep(s: State, step: Step)
    requires Tight(s) && Enabled(s, step) && (step.ThreadStep? ==> !step.spurious)
    ensures Tight(Next(s, step))
  {
  }

  lemma {:induction false} TightKept(s: State, run: seq<Step>)
    requires Tight(s) && IsRun(s, run) && Faithful(run)
    ensures Tight(After(s, run))
    decreases |run|
  {
    if run != [] {
      TightStep(s, run[0]);
      TightKept(Next(s, run[0]), run[1..]);
    }
  }

  lemma InitiallyTight()
    ensures Tight(INITIAL)
  {
  }

  /** So whenever the destructor strikes, `KillIsObeyed` applies. */
  lemma KillIsNeverLost(run: seq<Step>)
    requires IsRun(INITIAL, run) && Faithful(run)
    ensures After(INITIAL, run).thread != Restore(Starting)
  {
    InitiallyTight();
    TightKept(INITIAL, run);
  }

  /** Some run without spurious failures of the thread leads to `s`. */
  ghost predicate Arises(s: State) {
    exists run :: IsRun(INITIAL, run) && Faithful(run) && After(INITIAL, run) == s
  }

  lemma ArisesTight(s: State)
    requires Arises(s)
    ensures Tight(s)
  {
    var run :| IsRun(INITIAL, run) && Faithful(run) && After(INITIAL, run) == s;
    InitiallyTight();
    TightKept(INITIAL, run);
  }

  // ----- a start is obeyed -----

  /** How many steps of its own a starting thread is away from `workLoop`. */
  function Away(t: Thread): (n: nat)
    ensures n <= 4
  {
    match t
    case Restore(_) => 4
    case Waiting => 3
    case Test => 2
    case Begin => 1
    case _ => 0
  }

  /** `startWorking` waits and the thread is on its way. */
  predicate Launching(s: State) {
    Tight(s) && s.state == Starting && s.controller == AwaitStart && Away(s.thread) > 0
  }

  /** `startWorking` sets the thread on its way exactly if there is none yet or it has stopped. */
  lemma StartTakes(s: State)
    requires Arises(s) && s.controller == Free
    ensures Next(s, StartWorking(false)).state == Starting <==> s.thread == NoThread || s.state == Stopped
    ensures Launching(Next(s, StartWorking(false))) <==> s.thread == NoThread || s.state == Stopped
  {
    ArisesTight(s);
    TightStep(s, StartWorking(false));
  }

  /** Nobody interferes: after as many steps as it was away the thread is in `workLoop`, and started. */
  lemma {:induction false} LaunchingRun(s: State, run: seq<Step>)
    requires Launching(s) && IsRun(s, run) && Faithful(run) && Return !in run
    ensures ThreadSteps(run) < Away(s.thread) ==> Launching(After(s, run)) && Calls(s, run) == 0
    ensures ThreadSteps(run) == Away(s.thread) ==> After(s, run) == State(Started, InWorkLoop, AwaitStart)
    ensures ThreadSteps(run) >= Away(s.thread) ==> Calls(s, run) > 0 && After(s, run).state != Starting
    ensures After(s, run).controller == AwaitStart
    decreases |run|
  {
    if run != [] {
      var t, rest := Next(s, run[0]), run[1..];
      assert run[0] in run && run[0].ThreadStep?;
      TightStep(s, run[0]);
      if s.thread == Begin {
        StaysUnderWay(t, rest);
      } else {
        LaunchingRun(t, rest);
      }
    }
  }

  lemma {:induction false} StaysUnderWay(s: State, run: seq<Step>)
    requires Tight(s) && s.controller == AwaitStart && s.state != Starting
    requires IsRun(s, run) && Faithful(run) && Return !in run
    ensures After(s, run).state != Starting && After(s, run).controller == AwaitStart
    ensures run != [] ==> ThreadSteps(run) > 0
    decreases |run|
  {
    if run != [] {
      assert run[0] in run && run[0].ThreadStep?;
      TightStep(s, run[0]);
      StaysUnderWay(Next(s, run[0]), run[1..]);
    }
  }

  /** A start is obeyed, in every interleaving without spurious failures: a thread that is new or has
      stopped calls `workLoop` before `startWorking` returns, after four steps of its own at most (three
      if it was waiting). */
  lemma StartIsObeyed(s: State, during: seq<Step>)
    requires Arises(s) && s.controller == Free && (s.thread == NoThread || s.state == Stopped)
    requires IsRun(s, [StartWorking(false)] + during) && Faithful(during) && Return !in during
    ensures
      var call := [StartWorking(false)] + during;
      var away := Away(Next(s, StartWorking(false)).thread);
      && away == (if s.thread == NoThread then 2 else if s.thread == Waiting then 3 else 4)
      && (ThreadSteps(during) == away ==> After(s, call) == State(Started, InWorkLoop, AwaitStart))
      && (Enabled(After(s, call), Return) <==> ThreadSteps(during) >= away)
      && (Enabled(After(s, call), Return) ==> Calls(s, call) > 0)
  {
    var call := [StartWorking(false)] + during;
    assert call[0] == StartWorking(false) && call[1..] == during;
    ArisesTight(s);
    StartTakes(s);
    LaunchingRun(Next(s, StartWorking(false)), during);
  }

  /** A start while the thread is still stopping is lost: `startWorking` may return at once, and the
      thread, once out of `workLoop`, rests. */
  lemma StartWhileStoppingIsLost(s: State)
    requires Arises(s) && s.controller == Free && s.state == Stopping
    ensures
      var t := Next(s, StartWorking(false));
      && t == s.(controller := AwaitStart) && Enabled(t, Return) && Next(t, Return) == s
      && (s.thread == InWorkLoop || s.thread == Leave)
      && (s.thread == InWorkLoop ==>
            ThreadNext(ThreadNext(ThreadNext(s, false), false), false) == State(Stopped, Waiting, Free))
  {
    ArisesTight(s);
  }

  const BEGUN := [StartWorking(false), T, T, Return, TriggerStop(false)]

  /** Such states arise. */
  lemma StoppingArises()
    ensures Arises(State(Stopping, InWorkLoop, Free))
  {
    var r4 := [TriggerStop(false)];
    var r3 := [Return] + r4;
    var r2 := [T] + r3;
    var r1 := [T] + r2;
    Prepend(State(Started, InWorkLoop, Free), TriggerStop(false), []);
    assert [TriggerStop(false)] + [] == r4;
    Prepend(State(Started, InWorkLoop, AwaitStart), Return, r4);
    Prepend(State(Starting, Begin, AwaitStart), T, r3);
    Prepend(State(Starting, Test, AwaitStart), T, r2);
    Prepend(INITIAL, StartWorking(false), r1);
    assert BEGUN == [StartWorking(false)] + r1;
    hide IsRun, After;
    BegunIsFaithful();
  }

  lemma BegunIsFaithful()
    ensures Faithful(BEGUN)
  {
  }

  // ----- a stop holds -----

  predicate Stops(step: Step) {
    step == TriggerStop(false) || step == StopWorking(false)
  }

  /** Inside `workLoop` the stop is to be seen. */
  predicate StopSeen(s: State) {
    s.state != Started && (s.thread == InWorkLoop ==> s.state == Stopping || s.state == Killing)
  }

  lemma {:induction false} StopSeenKept(s: State, run: seq<Step>)
    requires StopSeen(s) && IsRun(s, run) && Calls(s, run) == 0
    ensures StopSeen(After(s, run))
    decreases |run|
  {
    if run != [] {
      StopSeenKept(Next(s, run[0]), run[1..]);
    }
  }

  /** A stop holds: after `triggerStopWorking` or from the call of `stopWorking` on, the state is not
      `Started` until `workLoop` is called anew, and it is `Stopping` (or `Killing`) as long as the thread
      is inside. */
  lemma StopHolds(s: State, stop: Step, after: seq<Step>)
    requires Arises(s) && Stops(stop) && IsRun(s, [stop] + after) && Calls(s, [stop] + after) == 0
    ensures
      var t := After(s, [stop] + after);
      t.state != Started && (t.thread == InWorkLoop ==> t.state == Stopping || t.state == Killing)
  {
    ArisesTight(s);
    var run := [stop] + after;
    assert run[0] == stop && run[1..] == after;
    StopSeenKept(Next(s, stop), after);
  }

  /** And `stopWorking` returns once `workLoop` has returned and the thread has taken a step. */
  lemma StopReturns(s: State)
    requires s.controller == AwaitStop && s.thread == InWorkLoop
    ensures Enabled(ThreadNext(ThreadNext(s, false), false), Return)
  {
  }

  // ----- stopped stays stopped -----

  /** A controller call that can set the thread going again. */
  predicate Wakes(step: Step) {
    step.StartWorking? || step.Destroy?
  }

  predicate Resting(s: State) {
    Tight(s) && s.state == Stopped && s.controller != AwaitExit
  }

  lemma {:induction false} RestingKept(s: State, run: seq<Step>)
    requires Resting(s) && IsRun(s, run) && Faithful(run) && forall step :: step in run ==> !Wakes(step)
    ensures Resting(After(s, run)) && Calls(s, run) == 0
    decreases |run|
  {
    if run != [] {
      assert !Wakes(run[0]);
      TightStep(s, run[0]);
      RestingKept(Next(s, run[0]), run[1..]);
    }
  }

  /** When `stopWorking` returns, the thread is outside `workLoop`, and it stays outside until the
      next call of `startWorking` or of the destructor. */
  lemma StopIsObeyed(before: seq<Step>, after: seq<Step>)
    requires IsRun(INITIAL, before + ([Return] + after)) && Faithful(before) && Faithful(after)
    requires IsRun(INITIAL, before) && After(INITIAL, before).controller == AwaitStop
    requires forall step :: step in after ==> !Wakes(step)
    ensures IsRun(After(INITIAL, before), [Return] + after)
    ensures Calls(After(INITIAL, before), [Return] + after) == 0
    ensures After(INITIAL, before + ([Return] + after)).thread != InWorkLoop
  {
    var rest := [Return] + after;
    RunSplits(INITIAL, before, rest);
    var s := After(INITIAL, before);
    InitiallyTight();
    TightKept(INITIAL, before);
    TightStep(s, Return);
    assert rest[0] == Return && rest[1..] == after;
    RestingKept(Next(s, Return), after);
  }

  // ----- with a spurious failure -----

  const T := ThreadStep(false)
  const LOSING := [StartWorking(false), T, ThreadStep(true), T, T, Return] + KILLED
  const KILLED := [Destroy, T, T, T, T]

  /** One spurious failure of the thread's compare-exchange can lose the kill: the destructor waits
      for the thread to exit while the thread is back in `workLoop` with nothing to stop it. */
  lemma SpuriousFailureLosesKill()
    ensures IsRun(INITIAL, LOSING) && After(INITIAL, LOSING) == State(Started, InWorkLoop, AwaitExit)
  {
    KillOverwritten();
    var r6 := KILLED;
    var r5 := [Return] + r6;
    var r4 := [T] + r5;
    var r3 := [T] + r4;
    var r2 := [ThreadStep(true)] + r3;
    var r1 := [T] + r2;
    Prepend(State(Stopped, Restore(Starting), AwaitStart), Return, r6);
    Prepend(State(Starting, Leave, AwaitStart), T, r5);
    Prepend(State(Starting, InWorkLoop, AwaitStart), T, r4);
    Prepend(State(Starting, Begin, AwaitStart), ThreadStep(true), r3);
    Prepend(State(Starting, Test, AwaitStart), T, r2);
    Prepend(INITIAL, StartWorking(false), r1);
    assert LOSING == [StartWorking(false)] + r1;
  }

  lemma KillOverwritten()
    ensures IsRun(State(Stopped, Restore(Starting), Free), KILLED)
    ensures After(State(Stopped, Restore(Starting), Free), KILLED) == State(Started, InWorkLoop, AwaitExit)
  {
    var r4 := [T];
    var r3 := [T] + r4;
    var r2 := [T] + r3;
    var r1 := [T] + r2;
    Prepend(State(Starting, Begin, AwaitExit), T, []);
    assert [T] + [] == r4;
    Prepend(State(Starting, Test, AwaitExit), T, r4);
    Prepend(State(Starting, Waiting, AwaitExit), T, r3);
    Prepend(State(Killing, Restore(Starting), AwaitExit), T, r2);
    Prepend(State(Stopped, Restore(Starting), Free), Destroy, r1);
    assert KILLED == [Destroy] + r1;
  }

  lemma Prepend(s: State, step: Step, rest: seq<Step>)
    requires Enabled(s, step) && IsRun(Next(s, step), rest)
    ensures IsRun(s, [step] + rest) && After(s, [step] + rest) == After(Next(s, step), rest)
  {
    assert ([step] + rest)[1..] == rest;
  }
}
