/** Which schedules exist on OpenCL: the shared cell of the generated code is written again by the
    next call (libcrypto/progpow.cpp) without a barrier after it was read, so lanes can be overtaken;
    lanes that run in lock-step never are. */
module Races {
  import opened Kernels
  import opened Device
  import opened Rounds
  import opened Interleavings
  import opened Completion

  function Last(run: seq<Group>): Group
    requires |run| > 0
  {
    run[|run| - 1]
  }

  /** Where a lane is one step later. */
  ghost function Following(k: Launch, p: Position): Position
    requires k.Valid()
  {
    if p.pc < |k.Code()| then Position(p.call, p.pc + 1) else Position(p.call + 1, 0)
  }

  /** The group after a step of lane `l`. */
  ghost function Moved(k: Launch, s: Group, l: laneIndex): Group
    requires k.Valid() && |s.at| == 16 && s.at[l].call < k.calls
  {
    var p := s.at[l];
    if p.pc < |k.Code()| then
      var ins := k.Code()[p.pc];
      Group(s.lanes[l := Exec(ins, k.gpu, l, p.call, s.share, s.lanes[l])],
            s.at[l := Following(k, p)],
            if ins == SharePublish && l == p.call % 16 then s.lanes[l].mix[0] else s.share)
    else s.(at := s.at[l := Following(k, p)])
  }

  /** Nothing but the barrier can hold a lane up. */
  ghost predicate Free(k: Launch, s: Group, l: laneIndex)
    requires k.Valid() && |s.at| == 16
  {
    && s.at[l].call < k.calls && s.at[l].pc <= |k.Code()|
    && (s.at[l].pc == 2 ==> AllReached(s, s.at[l].call, 2))
  }

  lemma MovedAdvances(k: Launch, s: Group, l: laneIndex)
    requires k.Valid() && k.kind.OpenCL? && |s.at| == 16 && Free(k, s, l)
    ensures Advance(k, s, Moved(k, s, l))
  {
    hide Exec, Kernel;
    KernelShape(k.kind, k.g);
    var t := Moved(k, s, l);
    if s.at[l].pc < |k.Code()| {
      assert PlacedRight(k.kind, s.at[l].pc, k.Code()[s.at[l].pc]);
      assert LaneStatement(k, s, t, l);
    } else {
      assert LaneReturns(k, s, t, l);
    }
  }

  /** A run goes on with a step of lane `l`. */
  lemma LaneSteps(k: Launch, run: seq<Group>, l: laneIndex) returns (next: seq<Group>)
    requires k.Valid() && k.kind.OpenCL? && IsRun(k, run) && |Last(run).at| == 16 && Free(k, Last(run), l)
    ensures IsRun(k, next) && |next| == |run| + 1 && next[..|run|] == run
    ensures Last(next).at == Last(run).at[l := Following(k, Last(run).at[l])]
  {
    hide Kernel, Advance, Exec;
    var s := Last(run);
    MovedAdvances(k, s, l);
    next := run + [Moved(k, s, l)];
    forall i | 0 <= i < |next| - 1 ensures |next[i].at| == 16 && Advance(k, next[i], next[i + 1]) {
      if i < |run| - 1 {
        assert next[i] == run[i] && next[i + 1] == run[i + 1];
      }
    }
  }

  // ----- lock-step -----

  ghost predicate AlwaysTogether(run: seq<Group>) {
    forall i :: 0 <= i < |run| ==> |run[i].at| == 16 && Together(run[i])
  }

  /** The first `n` lanes are one step ahead of the others. */
  ghost predicate Halfway(k: Launch, s: Group, p: Position, n: nat)
    requires k.Valid()
  {
    |s.at| == 16 && forall l: laneIndex :: s.at[l] == if l < n then Following(k, p) else p
  }

  lemma HalfwayTogether(k: Launch, s: Group, p: Position, n: nat)
    requires k.Valid() && Halfway(k, s, p, n)
    ensures Together(s) && (n == 16 ==> Halfway(k, s, Following(k, p), 0))
  {
    hide Kernel;
    KernelShape(k.kind, k.g);
  }

  /** The remaining lanes follow one by one. */
  lemma {:induction false} AllStep(k: Launch, run: seq<Group>, p: Position, n: nat) returns (next: seq<Group>)
    requires k.Valid() && k.kind.OpenCL? && IsRun(k, run) && AlwaysTogether(run)
    requires p.call < k.calls && p.pc <= |k.Code()| && n <= 16 && Halfway(k, Last(run), p, n)
    ensures IsRun(k, next) && AlwaysTogether(next) && run <= next && Halfway(k, Last(next), Following(k, p), 0)
    decreases 16 - n
  {
    hide Kernel, Advance, Together;
    next := run;
    HalfwayTogether(k, Last(run), p, n);
    if n < 16 {
      next := LaneSteps(k, run, n);
      HalfwayTogether(k, Last(next), p, n + 1);
      TogetherGrows(run, next);
      next := AllStep(k, next, p, n + 1);
    }
  }

  lemma TogetherGrows(run: seq<Group>, next: seq<Group>)
    requires |next| == |run| + 1 && next[..|run|] == run && AlwaysTogether(run)
    requires |Last(next).at| == 16 && Together(Last(next))
    ensures AlwaysTogether(next)
  {
    hide Together;
    forall i | 0 <= i < |next| ensures |next[i].at| == 16 && Together(next[i]) {
      if i < |run| {
        assert next[i] == run[i];
      }
    }
  }

  /** All lanes go from `p` to `q` in lock-step. */
  lemma {:induction false} AllGo(k: Launch, run: seq<Group>, p: Position, q: Position) returns (next: seq<Group>)
    requires k.Valid() && k.kind.OpenCL? && IsRun(k, run) && AlwaysTogether(run) && Halfway(k, Last(run), p, 0)
    requires InCode(k, q) && p.pc <= |k.Code()| && Reached(q, p.call, p.pc)
    ensures IsRun(k, next) && AlwaysTogether(next) && run <= next && Halfway(k, Last(next), q, 0)
    decreases q.call - p.call, |k.Code()| + 1 - p.pc
  {
    hide Kernel, IsRun, AlwaysTogether, Halfway;
    next := run;
    if p != q {
      assert |run| > 0 by { RunNonEmpty(k, run); }
      next := AllStep(k, run, p, 0);
      next := AllGo(k, next, Following(k, p), q);
    }
  }

  lemma RunNonEmpty(k: Launch, run: seq<Group>)
    requires k.Valid() && IsRun(k, run)
    ensures |run| > 0
  {
  }

  lemma Starts(k: Launch, s: Group)
    requires k.Valid() && Initial(k, s)
    ensures IsRun(k, [s]) && AlwaysTogether([s]) && Halfway(k, s, Position(0, 0), 0)
  {
    hide Kernel;
  }

  /** Every launch has a schedule, the lock-step one, that finishes with no lane overtaken. */
  lemma LockStepInTime(k: Launch, s: Group) returns (run: seq<Group>)
    requires k.Valid() && k.kind.OpenCL? && Initial(k, s)
    ensures IsRun(k, run) && run[0] == s && Finished(k, Last(run)) && AlwaysInTime(k, run)
  {
    hide Kernel, Advance, Together;
    Starts(k, s);
    run := AllGo(k, [s], Position(0, 0), Position(k.calls, 0));
    forall i | 0 <= i < |run| ensures InTime(k, run[i]) {
      TogetherInTime(k, run[i]);
    }
  }

  // ----- overtaking -----

  /** All lanes have arrived at the barrier of call `c`; lane `x` is alone past it. */
  ghost predicate Alone(s: Group, c: nat, x: laneIndex) {
    |s.at| == 16 && Reached(s.at[x], c, 2) && forall l: laneIndex :: l != x ==> s.at[l] == Position(c, 2)
  }

  /** Lane `x` runs on by itself until it has published the word of the next call. */
  lemma {:induction false} RunsAhead(k: Launch, run: seq<Group>, c: nat, x: laneIndex) returns (next: seq<Group>)
    requires k.Valid() && k.kind.OpenCL? && IsRun(k, run) && c + 1 < k.calls && Alone(Last(run), c, x)
    requires var p := Last(run).at[x];
      (p.call == c && p.pc <= |k.Code()|) || (p.call == c + 1 && p.pc <= 2)
    ensures IsRun(k, next) && run <= next && Alone(Last(next), c, x) && Last(next).at[x] == Position(c + 1, 2)
    decreases c + 1 - Last(run).at[x].call, |k.Code()| + 2 - Last(run).at[x].pc
  {
    hide Kernel, Advance;
    KernelShape(k.kind, k.g);
    next := run;
    if Last(run).at[x] != Position(c + 1, 2) {
      next := LaneSteps(k, run, x);
      next := RunsAhead(k, next, c, x);
    }
  }

  /** Every launch has, for each call but the last and each lane but the one sharing in the next call, a
      schedule that finishes and in which this lane is overtaken in this call. */
  lemma OvertakingHappens(k: Launch, s: Group, c: nat, m: laneIndex) returns (run: seq<Group>, i: nat)
    requires k.Valid() && k.kind.OpenCL? && Initial(k, s) && c + 1 < k.calls && m != (c + 1) % 16
    ensures IsRun(k, run) && run[0] == s && Finished(k, Last(run))
    ensures i < |run| && |run[i].at| == 16 && Overtaken(k, run[i], c, m)
  {
    hide Kernel, Advance, Together;
    KernelShape(k.kind, k.g);
    Starts(k, s);
    run := AllGo(k, [s], Position(0, 0), Position(c, 2));
    run := RunsAhead(k, run, c, (c + 1) % 16);
    i := |run| - 1;
    assert Overtaken(k, run[i], c, m);
    run := RunsComplete(k, run);
  }

  /** So where the words of two calls name different items there is a finished schedule with a lane in the
      wrong. */
  lemma SomeScheduleIsWrong(k: Launch, s: Group, c: nat, m: laneIndex) returns (run: seq<Group>)
    requires k.Valid() && k.kind.OpenCL? && Initial(k, s) && c + 1 < k.calls && m != (c + 1) % 16
    requires !SameShared(k, c)
    ensures IsRun(k, run) && run[0] == s && Finished(k, Last(run)) && !AlwaysExpected(k, run)
  {
    hide Kernel, Advance, Overtaken, LanesExpected, SameShared, Finished;
    var i;
    run, i := OvertakingHappens(k, s, c, m);
    FinishedExactly(k, run);
    assert !InTime(k, run[i]);
  }
}
