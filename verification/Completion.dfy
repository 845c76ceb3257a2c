/** Launches end: no schedule of the sixteen lanes is longer than the statements they have to
    execute, and every schedule can be continued to the end. */
module Completion {
  import opened Arith
  import opened Kernels
  import opened Device
  import opened Rounds
  import opened Interleavings

  /** The steps a lane at `p` still has to take, `len` statements and a return per call. */
  function Ahead(p: Position, calls: nat, len: nat): int {
    (calls - p.call) * (len + 1) - p.pc
  }

  function Total(at: seq<Position>, calls: nat, len: nat): int {
    if at == [] then 0 else Total(at[..|at| - 1], calls, len) + Ahead(at[|at| - 1], calls, len)
  }

  lemma {:induction false} TotalUpdate(at: seq<Position>, l: nat, q: Position, calls: nat, len: nat)
    requires l < |at|
    ensures Total(at[l := q], calls, len) == Total(at, calls, len) - Ahead(at[l], calls, len) + Ahead(q, calls, len)
  {
    hide Ahead;
    var n := |at| - 1;
    if l == n {
      assert at[l := q][..n] == at[..n];
    } else {
      assert at[l := q][..n] == at[..n][l := q];
      TotalUpdate(at[..n], l, q, calls, len);
    }
  }

  /** All lanes moving on by one statement. */
  lemma {:induction false} TotalAll(at: seq<Position>, bt: seq<Position>, calls: nat, len: nat)
    requires |at| == |bt|
    requires forall l :: 0 <= l < |at| ==> bt[l] == Position(at[l].call, at[l].pc + 1)
    ensures Total(bt, calls, len) == Total(at, calls, len) - |at|
  {
    if at != [] {
      TotalAll(at[..|at| - 1], bt[..|at| - 1], calls, len);
    }
  }

  lemma {:induction false} TotalOf(at: seq<Position>, p: Position, calls: nat, len: nat)
    requires forall l :: 0 <= l < |at| ==> at[l] == p
    ensures Total(at, calls, len) == |at| * Ahead(p, calls, len)
  {
    hide Ahead;
    if at != [] {
      TotalOf(at[..|at| - 1], p, calls, len);
      MulDistributes(|at|, 1, Ahead(p, calls, len));
    }
  }

  lemma {:induction false} TotalNat(at: seq<Position>, calls: nat, len: nat)
    requires forall l :: 0 <= l < |at| ==> Ahead(at[l], calls, len) >= 0
    ensures Total(at, calls, len) >= 0
  {
    if at != [] {
      TotalNat(at[..|at| - 1], calls, len);
    }
  }

  lemma AheadNat(k: Launch, p: Position)
    requires k.Valid() && InCode(k, p)
    ensures Ahead(p, k.calls, |k.Code()|) >= 0
  {
    hide Kernel;
    if p.call < k.calls {
      MulMonotonic(1, k.calls - p.call, |k.Code()| + 1);
    }
  }

  lemma AheadNext(p: Position, calls: nat, len: nat)
    ensures Ahead(Position(p.call, p.pc + 1), calls, len) == Ahead(p, calls, len) - 1
    ensures p.pc == len ==> Ahead(Position(p.call + 1, 0), calls, len) == Ahead(p, calls, len) - 1
  {
    MulDistributes(calls - p.call, 1, len + 1);
  }

  function Left(k: Launch, s: Group): int
    requires k.Valid()
  {
    Total(s.at, k.calls, |k.Code()|)
  }

  lemma LeftNat(k: Launch, s: Group)
    requires k.Valid() && Ordered(k, s)
    ensures |s.at| == 16 && Left(k, s) >= 0
  {
    hide Kernel, Held;
    forall l | 0 <= l < 16 ensures Ahead(s.at[l], k.calls, |k.Code()|) >= 0 {
      AheadNat(k, s.at[l]);
    }
    TotalNat(s.at, k.calls, |k.Code()|);
  }

  /** Every step uses up what is left. */
  lemma AdvanceShrinks(k: Launch, s: Group, t: Group)
    requires k.Valid() && |s.at| == 16 && Advance(k, s, t)
    ensures Left(k, t) < Left(k, s)
  {
    hide Kernel, Exec, Total, Ahead, AllReached;
    if GroupShuffle(k, s, t) {
      forall l | 0 <= l < 16 ensures t.at[l] == Position(s.at[l].call, s.at[l].pc + 1) {
        var m: laneIndex := l;
        assert s.at[m] == s.at[0];
      }
      TotalAll(s.at, t.at, k.calls, |k.Code()|);
    } else {
      var l: laneIndex :| LaneStatement(k, s, t, l) || LaneReturns(k, s, t, l);
      AheadNext(s.at[l], k.calls, |k.Code()|);
      TotalUpdate(s.at, l, t.at[l], k.calls, |k.Code()|);
    }
  }

  lemma {:induction false} RunShrinks(k: Launch, run: seq<Group>)
    requires k.Valid() && IsRun(k, run)
    ensures Left(k, run[|run| - 1]) + |run| - 1 <= Left(k, run[0])
  {
    hide Advance, Left, Kernel;
    if |run| > 1 {
      var front := run[..|run| - 1];
      RunShrinks(k, front);
      AdvanceShrinks(k, front[|front| - 1], run[|run| - 1]);
    }
  }

  /** No schedule takes more steps than sixteen lanes have statements and returns. */
  lemma RunsAreBounded(k: Launch, run: seq<Group>)
    requires k.Valid() && IsRun(k, run)
    ensures |run| - 1 <= 16 * (k.calls * (|k.Code()| + 1))
  {
    hide Advance, Kernel, Ordered;
    RunShrinks(k, run);
    RunOrdered(k, run);
    LeftNat(k, run[|run| - 1]);
    forall l | 0 <= l < 16 ensures run[0].at[l] == Position(0, 0) {
      var m: laneIndex := l;
      assert run[0].at[m] == Position(0, 0);
    }
    TotalOf(run[0].at, Position(0, 0), k.calls, |k.Code()|);
  }

  /** Every schedule can be continued until all lanes have finished. */
  lemma {:induction false} RunsComplete(k: Launch, run: seq<Group>) returns (full: seq<Group>)
    requires k.Valid() && IsRun(k, run)
    ensures IsRun(k, full) && run <= full && Finished(k, full[|full| - 1])
    decreases Left(k, run[|run| - 1])
  {
    hide Advance, Kernel, Ordered, Left;
    full := run;
    var s := run[|run| - 1];
    RunOrdered(k, run);
    LeftNat(k, s);
    if !Finished(k, s) {
      NeverStuck(k, s);
      var t :| Advance(k, s, t);
      var next := run + [t];
      forall i | 0 <= i < |next| - 1 ensures |next[i].at| == 16 && Advance(k, next[i], next[i + 1]) {
        if i < |run| - 1 {
          assert next[i] == run[i] && next[i + 1] == run[i + 1];
        }
      }
      AdvanceShrinks(k, s, t);
      RunOrdered(k, next);
      LeftNat(k, t);
      full := RunsComplete(k, next);
    }
  }
}
