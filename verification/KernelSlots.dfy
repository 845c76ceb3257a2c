/** The two kernel slots of the CUDA miner (libethash-cuda/CUDAMiner.cpp): one is executed while a
    background thread compiles the next period's kernel, and two indices are flipped independently.
    A slot is tagged with the period its kernel was compiled for; every compile succeeds. */
module KernelSlots {
  import opened Words

  datatype Slot = Empty | Kernel(period: word64)

  type index = i: int | 0 <= i < 2

  /** `pending`: the compile thread runs; `current` is `old_period_seed`, 2^64 - 1 before any period. */
  datatype State = State(next: word64, current: word64, slots: seq<Slot>, comp: index, exec: index, pending: bool)
  {
    predicate Valid() {
      |slots| == 2
    }

    /** The slot that `search` launches. */
    function Executed(): Slot
      requires Valid()
    {
      slots[exec]
    }

    predicate Running() {
      current != M64 - 1
    }
  }

  const INITIAL := State(0, M64 - 1, [Empty, Empty], 0, 1, false)

  /** `asyncCompile`. */
  function Compiled(s: State): (r: State)
    requires s.Valid()
    ensures r.Valid()
  {
    s.(slots := s.slots[s.comp := Kernel(s.next)], comp := 1 - s.comp, pending := false)
  }

  /** Waiting for the compile thread. */
  function Joined(s: State): (r: State)
    requires s.Valid()
    ensures r.Valid() && !r.pending
  {
    if s.pending then Compiled(s) else s
  }

  /** The very first period: its kernel has yet to be compiled. */
  function Entered(s: State, period: word64): (r: State)
    requires s.Valid()
    ensures r.Valid()
  {
    if s.next == 0 then Joined(s.(next := period)).(pending := true) else s
  }

  /** The branch that recovers from an unexpected period is taken. */
  predicate Recovers(s: State, period: word64)
    requires s.Valid()
  {
    var e := Entered(s, period);
    e.current != period && period != e.next
  }

  /** One job of the given period. */
  function Switched(s: State, period: word64): (r: State)
    requires s.Valid()
    ensures r.Valid()
  {
    var e := Entered(s, period);
    if e.current == period then e
    else
      var j := Joined(e);
      var k := if period != j.next then Compiled(j.(next := period)) else j;
      k.(current := period, exec := 1 - k.exec, next := (period + 1) % M64, pending := true)
  }

  // ----- the miner -----

  class CudaKernels {
    var next: word64
    var current: word64
    const slots: array<Slot>
    var comp: index
    var exec: index
    var pending: bool

    ghost predicate Valid() {
      slots.Length == 2
    }

    ghost function Now(): State
      reads this, slots
    {
      State(next, current, slots[..], comp, exec, pending)
    }

    constructor ()
      ensures Valid() && fresh(slots) && Now() == INITIAL
    {
      next, current, comp, exec, pending := 0, M64 - 1, 0, 1, false;
      slots := new Slot[2](_ => Empty);
      new;
      assert slots[..] == [Empty, Empty];
    }

    /** The body of the compile thread. */
    method AsyncCompile()
      requires Valid()
      modifies this, slots
      ensures Now() == Compiled(old(Now()))
    {
      slots[comp] := Kernel(next);
      comp := 1 - comp;
      pending := false;
    }

    method Join()
      requires Valid()
      modifies this, slots
      ensures Now() == Joined(old(Now()))
    {
      if pending {
        AsyncCompile();
      }
    }

    /** The part of `workLoop` that switches periods, up to `search`. */
    method SwitchPeriod(period: word64)
      requires Valid()
      modifies this, slots
      ensures Now() == Switched(old(Now()), period)
    {
      if next == 0 {
        next := period;
        Join();
        pending := true;
      }
      if current != period {
        Join();
        if period != next {
          next := period;
          pending := true;
          Join();
        }
        current := period;
        exec := 1 - exec;
        next := (period + 1) % M64;
        pending := true;
      }
    }
  }

  // ----- whole runs -----

  /** What happens next: a job arrives, whose period is its 32-bit block number, or the compile thread
      ends by itself. */
  datatype Event = Job(block: word) | CompileEnds

  function After(run: seq<Event>): (r: State)
    ensures r.Valid()
  {
    if run == [] then INITIAL
    else
      var s := After(run[..|run| - 1]);
      match run[|run| - 1]
      case Job(p) => Switched(s, p)
      case CompileEnds => Joined(s)
  }

  /** How often the recovery branch was taken. */
  function Recoveries(run: seq<Event>): nat {
    if run == [] then 0
    else
      var front, e := run[..|run| - 1], run[|run| - 1];
      Recoveries(front) + if e.Job? && Recovers(After(front), e.block) then 1 else 0
  }

  /** Before the first job; with an even and with an odd number of recoveries. */
  ghost predicate Inv(s: State, odd: bool) {
    && s.Valid()
    && (!s.Running() ==> s == INITIAL && !odd)
    && (s.Running() ==>
          && s.next == s.current + 1 <= M32
          && (odd <==> s.slots[s.exec] != Kernel(s.current))
          && (s.pending ==> s.comp == if odd then s.exec else 1 - s.exec)
          && (!s.pending ==> s.comp == if odd then 1 - s.exec else s.exec)
          && (!s.pending ==> s.slots[if odd then s.exec else 1 - s.exec] == Kernel(s.next))
          && (odd ==> s.slots[1 - s.exec] == Kernel(s.current)))
  }

  lemma JobKeeps(s: State, odd: bool, period: word)
    requires Inv(s, odd)
    ensures Inv(Switched(s, period), odd != Recovers(s, period))
  {
  }

  lemma CompileKeeps(s: State, odd: bool)
    requires Inv(s, odd)
    ensures Inv(Joined(s), odd)
  {
  }

  lemma {:induction false} RunKeeps(run: seq<Event>)
    ensures Inv(After(run), Recoveries(run) % 2 == 1)
  {
    if run != [] {
      var front, e := run[..|run| - 1], run[|run| - 1];
      RunKeeps(front);
      match e
      case Job(p) => JobKeeps(After(front), Recoveries(front) % 2 == 1, p);
      case CompileEnds => CompileKeeps(After(front), Recoveries(front) % 2 == 1);
    }
  }

  /** Some job has arrived. */
  predicate Busy(run: seq<Event>) {
    run != [] && (run[|run| - 1].Job? || Busy(run[..|run| - 1]))
  }

  /** The block of the last job. */
  function LastBlock(run: seq<Event>): word
    requires Busy(run)
  {
    match run[|run| - 1]
    case Job(p) => p
    case CompileEnds => LastBlock(run[..|run| - 1])
  }

  /** Every job is followed, whatever came before. */
  lemma JobIsCurrent(run: seq<Event>, p: word)
    ensures After(run + [Job(p)]).current == p
  {
    assert (run + [Job(p)])[..|run|] == run;
  }

  /** So the current period is that of the last job. */
  lemma {:induction false} CurrentIsLast(run: seq<Event>)
    ensures After(run).Running() <==> Busy(run)
    ensures Busy(run) ==> After(run).current == LastBlock(run)
  {
    if run != [] {
      var front := run[..|run| - 1];
      CurrentIsLast(front);
      if run[|run| - 1].Job? {
        JobIsCurrent(front, run[|run| - 1].block);
        assert run == front + [run[|run| - 1]];
      }
    }
  }

  /** At every moment of every run, the executed slot holds the kernel for the last job's period, and a
      running compile writes the other slot, exactly when the number of recoveries is even. */
  lemma ExecutedIsRight(run: seq<Event>)
    requires Busy(run)
    ensures After(run).Executed() == Kernel(LastBlock(run)) <==> Recoveries(run) % 2 == 0
    ensures After(run).pending ==> (After(run).comp != After(run).exec <==> Recoveries(run) % 2 == 0)
  {
    RunKeeps(run);
    CurrentIsLast(run);
  }

  /** Each new period is the one before plus one. */
  predicate Sequential(run: seq<Event>) {
    run == []
    || (var front, e := run[..|run| - 1], run[|run| - 1];
        Sequential(front)
        && (e.Job? && Busy(front) ==> e.block == LastBlock(front) || e.block == LastBlock(front) + 1))
  }

  /** Consecutive periods never need recovery. */
  lemma {:induction false} SequentialNeverRecovers(run: seq<Event>)
    requires Sequential(run)
    ensures Recoveries(run) == 0
  {
    if run != [] {
      var front := run[..|run| - 1];
      SequentialNeverRecovers(front);
      RunKeeps(front);
      CurrentIsLast(front);
    }
  }

  lemma SequentialIsRight(run: seq<Event>)
    requires Sequential(run) && Busy(run)
    ensures After(run).Executed() == Kernel(LastBlock(run))
    ensures After(run).pending ==> After(run).comp != After(run).exec
  {
    SequentialNeverRecovers(run);
    ExecutedIsRight(run);
  }

  /** One skipped period is enough to search with the wrong kernel. */
  lemma SkipIsWrong(run: seq<Event>, skip: word)
    requires Recoveries(run) == 0 && Busy(run)
    requires skip != LastBlock(run) && skip != LastBlock(run) + 1
    ensures After(run + [Job(skip)]).Executed() != Kernel(skip)
  {
    RunKeeps(run);
    CurrentIsLast(run);
    assert (run + [Job(skip)])[..|run|] == run;
    assert Recoveries(run + [Job(skip)]) == 1;
    ExecutedIsRight(run + [Job(skip)]);
  }
}
