/** The list of pools and its failover (libpoolprotocols/PoolManager.cpp). Clients, sockets and
    timers are parameters; a thrown exception is a result. */
module PoolManager {
  import opened Arith
  import opened Words

  datatype Connection = Connection(text: string, host: string, unrecoverable: bool)

  datatype Result =
    | Done
    | Pending          // "Outstanding operations. Retry ..."
    | OutOfBounds      // "Index out-of bounds."
    | IsActive         // "Can't remove active connection"
    | NotFound         // "Not found."

  /** How a rotation ends: nothing to do, an exception from an empty list, a pool selected, the end. */
  datatype Rotation = AlreadyConnected | NoConnection | Selected(index: nat) | Exits

  datatype State = State(connections: seq<Connection>, active: nat, attempt: nat, switches: word,
                         pending: bool, running: bool, stopping: bool)
  {
    /** The active index names a connection while there is any. */
    predicate Valid() {
      active < |connections| || (connections == [] && active == 0)
    }

    function Active(): Connection
      requires active < |connections|
    {
      connections[active]
    }
  }

  /** A manager that was just created. */
  function Unstarted(connections: seq<Connection>): State {
    State(connections, 0, 0, 0, false, false, false)
  }

  function Erased<T>(s: seq<T>, i: nat): seq<T>
    requires i < |s|
  {
    s[..i] + s[i + 1..]
  }

  function Bumped(s: State): State {
    s.(switches := (s.switches + 1) % M32)
  }

  // ----- the operations on values -----

  /** `removeConnection`. */
  function Removed(s: State, idx: nat): (Result, State) {
    if s.pending then (Pending, s)
    else if idx >= |s.connections| then (OutOfBounds, s)
    else if idx == s.active then (IsActive, s)
    else
      (Done, s.(connections := Erased(s.connections, idx), active := if s.active > idx then s.active - 1 else s.active))
  }

  /** `setActiveConnectionCommon`. */
  function Activated(s: State, idx: nat, spurious: bool): (Result, State) {
    if s.pending || spurious then (Pending, s)
    else if idx != s.active then (Done, Bumped(s).(active := idx, attempt := 0, pending := true))
    else (Done, s)
  }

  /** The first connection whose text matches, or the length of the list. */
  function FirstMatch(connections: seq<Connection>, matches: string -> bool, i: nat): (r: nat)
    requires i <= |connections|
    ensures i <= r <= |connections|
    ensures forall j :: i <= j < r ==> !matches(connections[j].text)
    ensures r < |connections| ==> matches(connections[r].text)
    decreases |connections| - i
  {
    if i == |connections| || matches(connections[i].text) then i else FirstMatch(connections, matches, i + 1)
  }

  /** A rotation up to the choice of a connection. */
  function Moved(s: State, retries: nat): State
    requires s.active < |s.connections|
  {
    if s.Active().unrecoverable then
      var rest := Erased(s.connections, s.active);
      Bumped(s).(connections := rest, attempt := 0, active := if s.active >= |rest| then 0 else s.active)
    else if s.attempt >= retries then
      if |s.connections| == 1 then s.(attempt := 0)
      else Bumped(s).(attempt := 0, active := if s.active + 1 >= |s.connections| then 0 else s.active + 1)
    else s
  }

  /** `rotateConnect` while not connected. */
  function Rotated(s: State, retries: nat): (Rotation, State) {
    var b := if s.active >= |s.connections| then s.(active := 0) else s;
    if b.connections == [] then (NoConnection, b)
    else
      var m := Moved(b, retries);
      if m.active < |m.connections| && m.Active().host != "exit" then
        (Selected(m.active), m.(attempt := m.attempt + 1))
      else (Exits, m.(running := false))
  }

  /** `failovertimer_elapsed`. */
  function FailedOver(s: State, aborted: bool): State {
    if !aborted && s.running && s.active != 0 then Bumped(s).(active := 0, attempt := 0) else s
  }

  /** `start`, whose rotation is posted. */
  function Started(s: State): State {
    Bumped(s).(running := true, pending := true)
  }

  /** `stop`, up to the disconnection it asks for. */
  function Halted(s: State): State {
    if s.running then s.(pending := true, stopping := true) else s
  }

  /** The handler of a lost connection; its rotation is posted. */
  function Disconnects(s: State): State {
    if s.stopping then s.(running := false) else s.(pending := true)
  }

  // ----- the manager -----

  class PoolManager {
    const retries: nat
    var connections: seq<Connection>
    var active: nat
    var attempt: nat
    var switches: word
    var pending: bool
    var running: bool
    var stopping: bool

    function Now(): State
      reads this
    {
      State(connections, active, attempt, switches, pending, running, stopping)
    }

    constructor (retries: nat, connections: seq<Connection>)
      ensures this.retries == retries && Now() == Unstarted(connections)
    {
      this.retries, this.connections := retries, connections;
      active, attempt, switches, pending, running, stopping := 0, 0, 0, false, false, false;
    }

    method AddConnection(c: Connection)
      requires Now().Valid()
      modifies this
      ensures Now().Valid() && Now() == old(Now()).(connections := old(connections) + [c])
    {
      connections := connections + [c];
    }

    method RemoveConnection(idx: nat) returns (r: Result)
      requires Now().Valid()
      modifies this
      ensures Now().Valid() && (r, Now()) == Removed(old(Now()), idx)
      ensures old(connections) != [] ==> connections != [] && Now().Active() == old(Now().Active())
      ensures r == Done <==> !pending && idx < |old(connections)| && idx != old(active)
    {
      if pending {
        return Pending;
      }
      if idx >= |connections| {
        return OutOfBounds;
      }
      if idx == active {
        return IsActive;
      }
      connections := connections[..idx] + connections[idx + 1..];
      if active > idx {
        active := active - 1;
      }
      return Done;
    }

    method SetActiveConnectionCommon(idx: nat, spurious: bool) returns (r: Result)
      requires Now().Valid() && idx < |connections|
      modifies this
      ensures Now().Valid() && (r, Now()) == Activated(old(Now()), idx, spurious)
    {
      if pending || spurious {
        return Pending;
      }
      pending := true;
      if idx != active {
        switches := (switches + 1) % M32;
        active := idx;
        attempt := 0;
      } else {
        pending := false;
      }
      return Done;
    }

    method SetActiveConnection(idx: nat, spurious: bool) returns (r: Result)
      requires Now().Valid()
      modifies this
      ensures Now().Valid()
      ensures idx >= |connections| ==> r == OutOfBounds && Now() == old(Now())
      ensures idx < |connections| ==> (r, Now()) == Activated(old(Now()), idx, spurious)
    {
      if idx >= |connections| {
        return OutOfBounds;
      }
      r := SetActiveConnectionCommon(idx, spurious);
    }

    /** By text: whatever it did, it reports that the connection was not found, unless operations are
        outstanding. */
    method SetActiveConnectionByText(matches: string -> bool, spurious: bool) returns (r: Result)
      requires Now().Valid()
      modifies this
      ensures Now().Valid() && r != Done
      ensures
        var i := FirstMatch(old(connections), matches, 0);
        if i == |old(connections)| then r == NotFound && Now() == old(Now())
        else
          var (done, s) := Activated(old(Now()), i, spurious);
          Now() == s && r == if done == Done then NotFound else done
    {
      var found := false;
      var idx := 0;
      while idx < |connections|
        invariant idx <= |connections| && Now() == old(Now())
        invariant FirstMatch(connections, matches, 0) == FirstMatch(connections, matches, idx)
      {
        if matches(connections[idx].text) {
          r := SetActiveConnectionCommon(idx, spurious);
          if r != Done {
            return;
          }
          break;
        }
        idx := idx + 1;
      }
      if !found {
        return NotFound;
      }
    }

    /** The client marks its connection. */
    method MarkUnrecoverable(idx: nat)
      requires Now().Valid() && idx < |connections|
      modifies this
      ensures Now().Valid()
      ensures Now() == old(Now()).(connections :=
        old(connections)[idx := old(connections)[idx].(unrecoverable := true)])
    {
      connections := connections[idx := connections[idx].(unrecoverable := true)];
    }

    method RotateConnect(connected: bool) returns (r: Rotation)
      requires Now().Valid()
      modifies this
      ensures Now().Valid()
      ensures connected ==> r == AlreadyConnected && Now() == old(Now())
      ensures !connected ==> (r, Now()) == Rotated(old(Now()), retries)
    {
      if connected {
        return AlreadyConnected;
      }
      if active >= |connections| {
        active := 0;
      }
      if connections == [] {
        return NoConnection;
      }
      MoveOn();
      if |connections| > 0 && connections[active].host != "exit" {
        attempt := attempt + 1;
        return Selected(active);
      } else {
        running := false;
        return Exits;
      }
    }

    /** The part of `rotateConnect` that discards or leaves the active connection. */
    method MoveOn()
      requires active < |connections|
      modifies this
      ensures Now().Valid() && Now() == Moved(old(Now()), retries)
    {
      if connections[active].unrecoverable {
        connections := connections[..active] + connections[active + 1..];
        attempt := 0;
        if active >= |connections| {
          active := 0;
        }
        switches := (switches + 1) % M32;
      } else if attempt >= retries {
        if |connections| == 1 {
          attempt := 0;
        } else {
          attempt := 0;
          active := active + 1;
          if active >= |connections| {
            active := 0;
          }
          switches := (switches + 1) % M32;
        }
      }
    }

    method Start()
      requires Now().Valid()
      modifies this
      ensures Now().Valid() && Now() == Started(old(Now()))
    {
      running := true;
      pending := true;
      switches := (switches + 1) % M32;
    }

    method Stop()
      requires Now().Valid()
      modifies this
      ensures Now().Valid() && Now() == Halted(old(Now()))
    {
      if running {
        pending := true;
        stopping := true;
      }
    }

    method OnDisconnected()
      requires Now().Valid()
      modifies this
      ensures Now().Valid() && Now() == Disconnects(old(Now()))
    {
      if stopping {
        running := false;
      } else {
        pending := true;
      }
    }

    method FailoverTimerElapsed(aborted: bool)
      requires Now().Valid()
      modifies this
      ensures Now().Valid() && Now() == FailedOver(old(Now()), aborted)
    {
      if !aborted {
        if running {
          if active != 0 {
            active := 0;
            attempt := 0;
            switches := (switches + 1) % M32;
          }
        }
      }
    }
  }

  // ----- every interleaving -----

  datatype Event =
    | Add(c: Connection)
    | Remove(idx: nat)
    | SetActive(idx: nat, spurious: bool)
    | SetActiveByText(matches: string -> bool, spurious: bool)
    | Mark(idx: nat)
    | Connected
    | Disconnected
    | Rotate
    | Failover(aborted: bool)
    | Start
    | Stop

  /** The state after one event. */
  function Next(s: State, e: Event, retries: nat): State {
    match e
    case Add(c) => s.(connections := s.connections + [c])
    case Remove(idx) => Removed(s, idx).1
    case SetActive(idx, spurious) => if idx >= |s.connections| then s else Activated(s, idx, spurious).1
    case SetActiveByText(matches, spurious) =>
      var i := FirstMatch(s.connections, matches, 0);
      if i == |s.connections| then s else Activated(s, i, spurious).1
    case Mark(idx) =>
      if idx >= |s.connections| then s
      else s.(connections := s.connections[idx := s.connections[idx].(unrecoverable := true)])
    case Connected => s.(pending := false)
    case Disconnected => Disconnects(s)
    case Rotate => Rotated(s, retries).1
    case Failover(aborted) => FailedOver(s, aborted)
    case Start => Started(s)
    case Stop => Halted(s)
  }

  function After(s: State, run: seq<Event>, retries: nat): State {
    if run == [] then s else Next(After(s, run[..|run| - 1], retries), run[|run| - 1], retries)
  }

  lemma NextValid(s: State, e: Event, retries: nat)
    requires s.Valid()
    ensures Next(s, e, retries).Valid()
    ensures e.Remove? && s.connections != [] ==>
      Next(s, e, retries).connections != [] && Next(s, e, retries).Active() == s.Active()
  {
  }

  /** The event made another connection active, or discarded the active one. */
  predicate Switches(s: State, e: Event, retries: nat) {
    var t := Next(s, e, retries);
    && (e.SetActive? || e.SetActiveByText? || e.Rotate? || e.Failover?)
    && (t.active != s.active || |t.connections| < |s.connections|)
  }

  /** The switch counter counts the switches and the starts, and every switch clears the attempts. */
  lemma SwitchesAreCounted(s: State, e: Event, retries: nat)
    requires s.Valid()
    ensures Next(s, e, retries).switches
      == if Switches(s, e, retries) || e.Start? then (s.switches + 1) % M32 else s.switches
    ensures Switches(s, e, retries) ==> Next(s, e, retries).attempt <= if e.Rotate? then 1 else 0
  {
    hide FirstMatch;
    if e.Rotate? {
      RotateSwitches(s, retries);
    }
  }

  lemma RotateSwitches(s: State, retries: nat)
    requires s.Valid()
    ensures
      var t := Rotated(s, retries).1;
      var switched := t.active != s.active || |t.connections| < |s.connections|;
      t.switches == (if switched then (s.switches + 1) % M32 else s.switches) && (switched ==> t.attempt <= 1)
  {
    if s.connections != [] {
      MoveSwitches(s, retries);
    }
    hide Moved;
  }

  lemma MoveSwitches(s: State, retries: nat)
    requires s.active < |s.connections|
    ensures
      var t := Moved(s, retries);
      var switched := t.active != s.active || |t.connections| < |s.connections|;
      t.switches == (if switched then (s.switches + 1) % M32 else s.switches) && (switched ==> t.attempt == 0)
  {
  }

  /** Operations are outstanding from a start, a stop, a loss or another choice of connection until one is
      connected; the manager runs from a start until the loss that follows a stop, or an exit. */
  lemma FlagsFollowEvents(s: State, e: Event, retries: nat)
    requires s.Valid()
    ensures
      var t := Next(s, e, retries);
      var chosen := (e.SetActive? || e.SetActiveByText?) && t.active != s.active;
      && (t.pending
          <==> ((s.pending && !e.Connected?) || e.Start? || chosen
                || (e.Stop? && s.running) || (e.Disconnected? && !s.stopping)))
      && (t.stopping <==> s.stopping || (e.Stop? && s.running))
      && (t.running
          <==> (e.Start? || (s.running && !(e.Disconnected? && s.stopping)
                             && !(e.Rotate? && Rotated(s, retries).0 == Exits))))
  {
    hide FirstMatch, Erased;
    RotateFlags(s, retries);
    hide Rotated;
  }

  lemma RotateFlags(s: State, retries: nat)
    ensures
      var (choice, t) := Rotated(s, retries);
      t.pending == s.pending && t.stopping == s.stopping && (t.running <==> s.running && choice != Exits)
  {
    hide Erased;
  }

  /** In every interleaving the active index stays below the size of the list while there is a
      connection. */
  lemma {:induction false} ActiveInRange(connections: seq<Connection>, run: seq<Event>, retries: nat)
    ensures After(Unstarted(connections), run, retries).Valid()
  {
    if run != [] {
      ActiveInRange(connections, run[..|run| - 1], retries);
      NextValid(After(Unstarted(connections), run[..|run| - 1], retries), run[|run| - 1], retries);
    }
  }

  lemma AttemptStep(s: State, e: Event, retries: nat)
    requires s.attempt <= if retries > 0 then retries else 1
    ensures Next(s, e, retries).attempt <= if retries > 0 then retries else 1
  {
    hide FirstMatch, Erased, Rotated;
    RotatedAttempt(s, retries);
  }

  lemma RotatedAttempt(s: State, retries: nat)
    requires s.attempt <= if retries > 0 then retries else 1
    ensures Rotated(s, retries).1.attempt <= if retries > 0 then retries else 1
  {
    hide Erased, Bumped;
  }

  /** The attempt counter never outgrows the allowed retries, so a 32-bit counter cannot wrap. */
  lemma {:induction false} AttemptsBounded(connections: seq<Connection>, run: seq<Event>, retries: nat)
    ensures After(Unstarted(connections), run, retries).attempt <= if retries > 0 then retries else 1
  {
    if run != [] {
      hide Next;
      AttemptsBounded(connections, run[..|run| - 1], retries);
      AttemptStep(After(Unstarted(connections), run[..|run| - 1], retries), run[|run| - 1], retries);
    }
  }

  /** Failover does act: with two connections or more there is a run that leaves the first one for any
      other, and from there the timer leads back. */
  lemma FailoverActs(connections: seq<Connection>, idx: nat, retries: nat) returns (run: seq<Event>)
    requires 0 < idx < |connections|
    ensures After(Unstarted(connections), run, retries).running
    ensures After(Unstarted(connections), run, retries).active == idx
    ensures After(Unstarted(connections), run + [Failover(false)], retries).active == 0
  {
    run := [Start, Connected, SetActive(idx, false)];
    assert run[..2][..1] == [Start] && run[..2][1] == Connected;
    assert [Start][..0] == [];
    var s := Started(Unstarted(connections));
    assert After(Unstarted(connections), [Start], retries) == s;
    assert After(Unstarted(connections), run[..2], retries) == s.(pending := false);
    assert After(Unstarted(connections), run, retries) == Activated(s.(pending := false), idx, false).1;
    assert (run + [Failover(false)])[..3] == run;
  }

  // ----- rotation -----

  /** When an unrecoverable connection is discarded, the one after it, round the end of the list, is the
      one selected, and the others keep their order. */
  lemma DiscardSelectsNext(s: State, retries: nat)
    requires s.active < |s.connections| && s.Active().unrecoverable && |s.connections| > 1
    ensures
      var next := s.connections[if s.active + 1 == |s.connections| then 0 else s.active + 1];
      var (choice, t) := Rotated(s, retries);
      && t.connections == s.connections[..s.active] + s.connections[s.active + 1..]
      && t.active < |t.connections| && t.Active() == next
      && (next.host != "exit" ==> choice == Selected(t.active) && t.attempt == 1)
      && (next.host == "exit" ==> choice == Exits && !t.running)
  {
    hide Bumped;
    assert s.active >= |Erased(s.connections, s.active)| <==> s.active + 1 == |s.connections|;
  }

  /** The last connection discarded leaves nothing to select. */
  lemma DiscardOfTheLast(s: State, retries: nat)
    requires |s.connections| == 1 && s.active == 0 && s.Active().unrecoverable
    ensures Rotated(s, retries).0 == Exits && Rotated(s, retries).1.connections == []
  {
  }

  /** The state after `t` rotations without any other event. */
  function Rotations(s: State, retries: nat, t: nat): State {
    if t == 0 then s else Rotated(Rotations(s, retries, t - 1), retries).1
  }

  /** What rotation number `t`, counted from zero, chooses. */
  function Choice(s: State, retries: nat, t: nat): Rotation {
    Rotated(Rotations(s, retries, t), retries).0
  }

  predicate Usable(connections: seq<Connection>) {
    connections != [] && forall c :: c in connections ==> !c.unrecoverable && c.host != "exit"
  }

  /** What rotation leaves unchanged, and where it stands. */
  predicate Stands(s: State, connections: seq<Connection>, active: nat, attempt: nat) {
    s.connections == connections && s.active == active && s.attempt == attempt
  }

  lemma OneRotation(s: State, retries: nat)
    requires Usable(s.connections) && s.active < |s.connections|
    ensures
      var n, (r, t) := |s.connections|, Rotated(s, retries);
      if s.attempt < retries then r == Selected(s.active) && Stands(t, s.connections, s.active, s.attempt + 1)
      else
        var next := if s.active + 1 == n then 0 else s.active + 1;
        r == Selected(next) && Stands(t, s.connections, next, 1)
  {
    assert s.Active() in s.connections;
  }

  lemma NextTurn(q: nat, n: nat)
    requires n > 0
    ensures (q + 1) % n == if q % n + 1 == n then 0 else q % n + 1
  {
    DivMod(q, n);
    if q % n + 1 == n {
      DivModIs(q + 1, q / n + 1, 0, n);
    } else {
      DivModIs(q + 1, q / n, q % n + 1, n);
    }
  }

  /** After `t + 1` failed attempts with `retries` allowed per connection. */
  lemma {:induction false} RotationsStand(s: State, retries: nat, t: nat)
    requires Usable(s.connections) && s.active == 0 && s.attempt == 0 && retries > 0
    ensures Choice(s, retries, t) == Selected((t / retries) % |s.connections|)
    ensures Stands(Rotations(s, retries, t + 1), s.connections, (t / retries) % |s.connections|, t % retries + 1)
  {
    hide Rotated;
    var n := |s.connections|;
    if t == 0 {
      DivModIs(0, 0, 0, retries);
      DivModIs(0, 0, 0, n);
      OneRotation(s, retries);
    } else {
      RotationsStand(s, retries, t - 1);
      var before := Rotations(s, retries, t);
      DivMod(t - 1, retries);
      DivMod((t - 1) / retries, n);
      OneRotation(before, retries);
      if (t - 1) % retries + 1 < retries {
        DivModIs(t, (t - 1) / retries, (t - 1) % retries + 1, retries);
      } else {
        DivModIs(t, (t - 1) / retries + 1, 0, retries);
        NextTurn((t - 1) / retries, n);
      }
    }
  }

  /** With no retries allowed every rotation moves on, the first one included. */
  lemma {:induction false} NoRetriesMoveOn(s: State, t: nat)
    requires Usable(s.connections) && s.active == 0 && s.attempt == 0
    ensures Choice(s, 0, t) == Selected((t + 1) % |s.connections|)
    ensures Stands(Rotations(s, 0, t + 1), s.connections, (t + 1) % |s.connections|, 1)
  {
    hide Rotated;
    var n := |s.connections|;
    NextTurn(t, n);
    if t == 0 {
      DivModIs(0, 0, 0, n);
      OneRotation(s, 0);
    } else {
      NoRetriesMoveOn(s, t - 1);
      OneRotation(Rotations(s, 0, t), 0);
    }
  }
}
