/** The Keccak permutations of the CUDA kernels (`keccak_f1600` in libethash-cuda/CUDAMiner_cuda.cu,
    `keccak_f800` in libethash-cuda/CUDAMiner_kernel.cu): rolled loops that work in place, with tables
    for the order in which lanes are moved, against the same standard as the host's unrolled ones. */
module KeccakKernels {
  import opened Keccak
  import opened KeccakF

  // ----- theta -----

  /** The lanes of the first `n` columns are done. */
  ghost predicate ColumnsDone(w: nat, was: seq<seq<bit>>, now: seq<seq<bit>>, n: nat, rows: nat)
    requires Shaped(w, was)
  {
    |now| == 25 && forall i :: 0 <= i < 25 ==>
      now[i] == if i % 5 < n || (i % 5 == n && i / 5 < rows) then Xor(was[i], DLane(was, w, i % 5)) else was[i]
  }

  method ThetaInPlace(w: nat, st: array<seq<bit>>)
    requires st.Length == 25 && Shaped(w, st[..])
    modifies st
    ensures st[..] == Theta(w, old(st[..]))
  {
    hide Xor, Rotl, ParityLane, DLane, Theta;
    ghost var was := st[..];
    var bc := new seq<bit>[5];
    for i := 0 to 5
      invariant st[..] == was && forall x :: 0 <= x < i ==> bc[x] == ParityLane(was, w, x)
    {
      bc[i] := Xor(Xor(Xor(Xor(st[i], st[i + 5]), st[i + 10]), st[i + 15]), st[i + 20]);
      ParityIs(w, was, i);
    }
    for i := 0 to 5
      invariant ColumnsDone(w, was, st[..], i, 0)
      invariant forall x :: 0 <= x < 5 ==> bc[x] == ParityLane(was, w, x)
    {
      var t := Xor(bc[(i + 4) % 5], Rotl(bc[(i + 1) % 5], 1));
      DIs(w, was, i);
      ThetaColumn(w, st, i, t, was);
    }
    forall i | 0 <= i < 25 ensures st[i] == Theta(w, was)[i] {
      ThetaLane(w, was, i);
    }
  }

  /** One column of theta. */
  method ThetaColumn(w: nat, st: array<seq<bit>>, i: nat, t: seq<bit>, ghost was: seq<seq<bit>>)
    requires st.Length == 25 && i < 5 && Shaped(w, was) && t == DLane(was, w, i) && ColumnsDone(w, was, st[..], i, 0)
    modifies st
    ensures ColumnsDone(w, was, st[..], i + 1, 0)
  {
    hide Xor, DLane;
    for r := 0 to 5
      invariant ColumnsDone(w, was, st[..], i, r)
    {
      Index(i, r);
      st[5 * r + i] := Xor(st[5 * r + i], t);
    }
  }

  lemma ParityIs(w: nat, s: seq<seq<bit>>, x: nat)
    requires Shaped(w, s) && x < 5
    ensures ParityLane(s, w, x) == Xor(Xor(Xor(Xor(s[x], s[x + 5]), s[x + 10]), s[x + 15]), s[x + 20])
  {
    hide Xor;
  }

  lemma DIs(w: nat, s: seq<seq<bit>>, x: nat)
    requires Shaped(w, s) && x < 5
    ensures DLane(s, w, x) == Xor(ParityLane(s, w, (x + 4) % 5), Rotl(ParityLane(s, w, (x + 1) % 5), 1))
  {
    hide Xor, Rotl, ParityLane;
  }

  // ----- rho and pi -----

  /** `keccakf_rotc`. */
  function Rotc(i: nat): nat
    requires i < 24
  {
    if i < 5 then Pick(i, 1, 3, 6, 10, 15)
    else if i < 10 then Pick(i - 5, 21, 28, 36, 45, 55)
    else if i < 15 then Pick(i - 10, 2, 14, 27, 41, 56)
    else if i < 20 then Pick(i - 15, 8, 25, 43, 62, 18)
    else Pick(i - 20, 39, 61, 20, 44, 0)
  }

  /** `keccakf_piln`. */
  function Piln(i: nat): nat
    requires i < 24
  {
    if i < 5 then Pick(i, 10, 7, 11, 17, 18)
    else if i < 10 then Pick(i - 5, 3, 5, 16, 8, 21)
    else if i < 15 then Pick(i - 10, 24, 4, 15, 23, 19)
    else if i < 20 then Pick(i - 15, 13, 12, 2, 20, 14)
    else Pick(i - 20, 22, 9, 6, 1, 0)
  }

  /** When the walk comes to a lane. */
  function Turn(j: nat): nat
    requires 0 < j < 25
  {
    if j < 5 then Pick(j, 0, 23, 17, 5, 11)
    else if j < 10 then Pick(j - 5, 6, 22, 1, 8, 21)
    else if j < 15 then Pick(j - 10, 0, 2, 16, 15, 19)
    else if j < 20 then Pick(j - 15, 12, 7, 3, 4, 14)
    else Pick(j - 20, 18, 9, 20, 13, 10)
  }

  /** The lane that pi puts into lane `j`. */
  function Origin(j: nat): (i: nat)
    requires j < 25
    ensures i < 25
  {
    5 * (j % 5) + (j % 5 + 3 * (j / 5)) % 5
  }

  /** Lane `j` comes at its turn, after the lane that pi puts into it, and is rotated by that lane's
      count. */
  predicate InWalk(j: nat)
    requires 0 < j < 25
  {
    && Turn(j) < 24 && Piln(Turn(j)) == j
    && Origin(j) == (if Turn(j) == 0 then 1 else Piln(Turn(j) - 1))
    && Rotc(Turn(j)) == Offset(Origin(j))
  }

  lemma ComesAtItsTurn(j: nat)
    requires 0 < j < 25
    ensures Turn(j) < 24 && Piln(Turn(j)) == j
  {
  }

  lemma ComesAfterItsOrigin(x: nat, y: nat)
    requires x < 5 && y < 5 && x + y > 0
    ensures var j, o := 5 * y + x, 5 * x + (x + 3 * y) % 5;
      Turn(j) < 24 && o == if Turn(j) == 0 then 1 else Piln(Turn(j) - 1)
  {
  }

  lemma RotatesByTheLaneBefore(t: nat)
    requires t < 24
    ensures Rotc(t) == Offset(if t == 0 then 1 else Piln(t - 1))
  {
  }

  /** The table is a walk over all lanes but the first. */
  lemma WalkOf(j: nat)
    requires 0 < j < 25
    ensures InWalk(j)
  {
    hide Turn, Piln, Rotc, Offset;
    ComesAtItsTurn(j);
    ComesAfterItsOrigin(j % 5, j / 5);
    RotatesByTheLaneBefore(Turn(j));
  }

  lemma TurnOf(i: nat)
    requires i < 24
    ensures 0 < Piln(i) < 25 && Turn(Piln(i)) == i
  {
  }

  /** The lanes the walk has come to hold the rotated lanes that pi puts there. */
  ghost predicate Walked(was: seq<seq<bit>>, now: seq<seq<bit>>, n: nat)
    requires |was| == 25 && forall i :: 0 <= i < 25 ==> |was[i]| > 0
  {
    |now| == 25 && now[0] == was[0]
    && forall j {:trigger now[j]} :: 0 < j < 25 ==>
         now[j] == if Turn(j) < n then Rotl(was[Origin(j)], Offset(Origin(j))) else was[j]
  }

  method RhoPiInPlace(w: nat, st: array<seq<bit>>)
    requires st.Length == 25 && Shaped(w, st[..])
    modifies st
    ensures st[..] == Pi(w, Rho(w, old(st[..])))
  {
    hide Rotl, Piln, Rotc, Turn, Origin, Offset, Pi, Rho;
    ghost var was := st[..];
    var t := st[1];
    for i := 0 to 24
      invariant Walked(was, st[..], i)
      invariant t == was[if i == 0 then 1 else (TurnOf(i - 1); Piln(i - 1))]
    {
      TurnOf(i);
      WalkOf(Piln(i));
      var j := Piln(i);
      var bc := st[j];
      st[j] := Rotl(t, Rotc(i));
      t := bc;
      OthersWait(j);
    }
    forall j | 0 <= j < 25 ensures st[j] == Pi(w, Rho(w, was))[j] {
      PiRhoLane(w, was, j);
      if j > 0 {
        WalkOf(j);
      }
    }
  }

  /** Different lanes have different turns. */
  lemma OthersWait(j: nat)
    requires 0 < j < 25
    ensures forall k {:trigger Turn(k)} :: 0 < k < 25 && k != j ==> Turn(k) != Turn(j)
  {
    hide Piln, Turn, Rotc, Offset, Origin;
    forall k | 0 < k < 25 && k != j ensures Turn(k) != Turn(j) {
      WalkOf(k);
      WalkOf(j);
    }
  }

  lemma PiRhoLane(w: nat, s: seq<seq<bit>>, j: nat)
    requires Shaped(w, s) && j < 25
    ensures j > 0 ==> Pi(w, Rho(w, s))[j] == Rotl(s[Origin(j)], Offset(Origin(j)))
    ensures j == 0 ==> Pi(w, Rho(w, s))[j] == s[0]
  {
    hide Offset, Rotl, Rho;
    RhoLane(w, s, Origin(j));
    if j == 0 {
      NoTurn(s[0]);
    }
  }

  lemma NoTurn(a: seq<bit>)
    requires |a| > 0
    ensures Offset(0) == 0 && Rotl(a, 0) == a
  {
    forall z | 0 <= z < |a| ensures Back(z, 0, |a|) == z {
      BackIs(z, 0, |a|, 0, 0);
    }
  }

  // ----- chi and iota -----

  /** The first `n` rows are done, and `x` lanes of the next one. */
  ghost predicate RowsDone(w: nat, was: seq<seq<bit>>, now: seq<seq<bit>>, n: nat, x: nat)
    requires Shaped(w, was)
  {
    |now| == 25 && forall i :: 0 <= i < 25 ==>
      now[i] == if i / 5 < n || (i / 5 == n && i % 5 < x) then Chi(w, was)[i] else was[i]
  }

  method ChiInPlace(w: nat, st: array<seq<bit>>)
    requires st.Length == 25 && Shaped(w, st[..])
    modifies st
    ensures st[..] == Chi(w, old(st[..]))
  {
    hide Xor, And, Not, Chi;
    ghost var was := st[..];
    for r := 0 to 5
      invariant RowsDone(w, was, st[..], r, 0)
    {
      var bc := st[5 * r..5 * r + 5];
      forall x | 0 <= x < 5 ensures bc[x] == was[5 * r + x] {
        Index(x, r);
      }
      ChiRow(w, st, r, bc, was);
    }
  }

  /** One row of chi. */
  method ChiRow(w: nat, st: array<seq<bit>>, r: nat, bc: seq<seq<bit>>, ghost was: seq<seq<bit>>)
    requires st.Length == 25 && r < 5 && Shaped(w, was) && RowsDone(w, was, st[..], r, 0)
    requires |bc| == 5 && forall x :: 0 <= x < 5 ==> bc[x] == was[5 * r + x]
    modifies st
    ensures RowsDone(w, was, st[..], r + 1, 0)
  {
    hide Xor, And, Not, Chi;
    for i := 0 to 5
      invariant RowsDone(w, was, st[..], r, i)
    {
      Index(i, r);
      ChiAt(w, was, i, r);
      st[5 * r + i] := Xor(st[5 * r + i], And(Not(bc[(i + 1) % 5]), bc[(i + 2) % 5]));
    }
  }

  /** `keccakf_rndc` of the two kernels. */
  function Rndc(w: nat, r: nat): nat
    requires r < 24
  {
    if w == 64 then
      [0x0000000000000001, 0x0000000000008082, 0x800000000000808A,
       0x8000000080008000, 0x000000000000808B, 0x0000000080000001,
       0x8000000080008081, 0x8000000000008009, 0x000000000000008A,
       0x0000000000000088, 0x0000000080008009, 0x000000008000000A,
       0x000000008000808B, 0x800000000000008B, 0x8000000000008089,
       0x8000000000008003, 0x8000000000008002, 0x8000000000000080,
       0x000000000000800A, 0x800000008000000A, 0x8000000080008081,
       0x8000000000008080, 0x0000000080000001, 0x8000000080008008][r]
    else
      [0x00000001, 0x00008082, 0x0000808a, 0x80008000, 0x0000808b, 0x80000001,
       0x80008081, 0x00008009, 0x0000008a, 0x00000088, 0x80008009, 0x8000000a,
       0x8000808b, 0x0000008b, 0x00008089, 0x00008003, 0x00008002, 0x00000080,
       0x0000800a, 0x8000000a, 0x80008081, 0x00008080, 0x80000001, 0x80008008][r]
  }

  lemma RndcIs(w: nat, r: nat)
    requires (w == 64 || w == 32) && r < 24
    ensures Binary(w, Rndc(w, r)) == RoundConstant(w, r)
  {
    hide Binary, RoundConstant;
    TableLaneIs(w, r);
    SameTables(w, r);
  }

  lemma SameTables(w: nat, r: nat)
    requires (w == 64 || w == 32) && r < 24
    ensures Rndc(w, r) == if w == 64 then Constant64(r) else Constant32(r)
  {
  }

  // ----- the permutations -----

  /** `keccak_f1600_round` and `keccak_f800_round`. */
  method RoundInPlace(w: nat, st: array<seq<bit>>, r: nat)
    requires (w == 64 || w == 32) && st.Length == 25 && Shaped(w, st[..]) && r < 24
    modifies st
    ensures st[..] == Round(w, old(st[..]), RoundConstant(w, r))
  {
    hide Theta, Rho, Pi, Chi, Xor, Rndc, Binary, RoundConstant;
    ThetaInPlace(w, st);
    RhoPiInPlace(w, st);
    ChiInPlace(w, st);
    RndcIs(w, r);
    IotaLanes(w, st[..], RoundConstant(w, r));
    st[0] := Xor(st[0], Binary(w, Rndc(w, r)));
  }

  lemma IotaLanes(w: nat, s: seq<seq<bit>>, rc: seq<bit>)
    requires Shaped(w, s) && |rc| == w
    ensures Iota(w, s, rc) == s[0 := Xor(s[0], rc)]
  {
  }

  /** The loops over 24 rounds on 64-bit lanes and 22 on 32-bit lanes: the device's permutations are the
      standard's, and so the host's. */
  method KeccakInPlace(w: nat, st: array<seq<bit>>)
    requires (w == 64 || w == 32) && st.Length == 25 && Shaped(w, st[..])
    modifies st
    ensures st[..] == Rounds(w, RoundCount(w), old(st[..]))
  {
    hide Round, RoundConstant;
    var rounds := if w == 64 then 24 else 22;
    for r := 0 to rounds
      invariant st[..] == Rounds(w, r, old(st[..]))
    {
      RoundInPlace(w, st, r);
    }
  }
}
