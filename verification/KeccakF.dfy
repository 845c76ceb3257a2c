/** The unrolled Keccak permutations (libcrypto/keccak.cpp) against section 3 of FIPS 202, for lanes of
    64 bits (`keccakf1600`) and of 32 bits (`keccakf800`). A lane is the list of its bits, least
    significant first; lane `5 * y + x` of a state is lane (x, y) of the standard. */
module KeccakF {
  import opened Arith
  import opened Bits
  import opened Keccak

  ghost predicate Shaped(w: nat, s: seq<seq<bit>>) {
    w > 0 && |s| == 25 && forall i :: 0 <= i < 25 ==> |s[i]| == w
  }

  function And(a: seq<bit>, b: seq<bit>): (r: seq<bit>)
    requires |a| == |b|
    ensures |r| == |a|
  {
    seq(|a|, i requires 0 <= i < |a| => a[i] && b[i])
  }

  function Not(a: seq<bit>): (r: seq<bit>)
    ensures |r| == |a|
  {
    seq(|a|, i requires 0 <= i < |a| => !a[i])
  }

  /** The position `k` bits before `z`, round the end of `w` bits. */
  function Back(z: int, k: nat, w: nat): (r: nat)
    requires w > 0
    ensures r < w
  {
    (z - k) % w
  }

  /** `rotl64` and `rotl32`: bit `z` moves to `z + k`, round the end. */
  function Rotl(a: seq<bit>, k: nat): (r: seq<bit>)
    requires |a| > 0
    ensures |r| == |a|
  {
    seq(|a|, z requires 0 <= z < |a| => a[Back(z, k, |a|)])
  }

  /** `n << k`. */
  function ShiftUp(a: seq<bit>, k: nat): seq<bit> {
    seq(|a|, z requires 0 <= z < |a| => z >= k && a[z - k])
  }

  /** `n >> k`. */
  function ShiftDown(a: seq<bit>, k: nat): seq<bit> {
    seq(|a|, z requires 0 <= z < |a| => z + k < |a| && a[z + k])
  }

  function Or(a: seq<bit>, b: seq<bit>): seq<bit>
    requires |a| == |b|
  {
    seq(|a|, z requires 0 <= z < |a| => a[z] || b[z])
  }

  /** The two shifts of the code make the rotation, also by a multiple of the width, where both shift by
      nothing. */
  lemma RotlIsShifts(a: seq<bit>, k: nat)
    requires |a| > 0
    ensures var w, s := |a|, k % |a|; Rotl(a, k) == Or(ShiftUp(a, s), ShiftDown(a, (w - s) % w))
  {
    var w, s := |a|, k % |a|;
    DivMod(k, w);
    WrapOnce(w, s);
    forall z | 0 <= z < w ensures Rotl(a, k)[z] == (ShiftUp(a, s)[z] || ShiftDown(a, (w - s) % w)[z]) {
      BackIs(z, k, w, k / w, s);
    }
  }

  lemma WrapOnce(w: nat, s: nat)
    requires s < w
    ensures (w - s) % w == if s == 0 then 0 else w - s
  {
    if s == 0 {
      DivModIs(w, 1, 0, w);
    } else {
      DivModIs(w - s, 0, w - s, w);
    }
  }

  lemma BackIs(z: int, k: int, w: int, q: int, s: int)
    requires 0 <= z < w && 0 <= s < w && 0 <= k == q * w + s
    ensures Back(z, k, w) == if z >= s then z - s else z + w - s
  {
    if z >= s {
      DivModIs(z - k, -q, z - s, w);
    } else {
      MulDistributes(-q, -1, w);
      DivModIs(z - k, -q - 1, z + w - s, w);
    }
  }

  // ----- the step mappings of section 3.2 -----

  /** The parity of a column. */
  function Parity(s: seq<seq<bit>>, w: nat, x: nat, z: nat): bit
    requires Shaped(w, s) && x < 5 && z < w
  {
    (((s[x][z] != s[5 + x][z]) != s[10 + x][z]) != s[15 + x][z]) != s[20 + x][z]
  }

  function Theta(w: nat, s: seq<seq<bit>>): (r: seq<seq<bit>>)
    requires Shaped(w, s)
    ensures Shaped(w, r)
  {
    seq(25, i requires 0 <= i < 25 => seq(w, z requires 0 <= z < w =>
      s[i][z] != (Parity(s, w, (i % 5 + 4) % 5, z) != Parity(s, w, (i % 5 + 1) % 5, Back(z, 1, w)))))
  }

  /** The rotation of each lane; `OffsetsAreTheStandards` relates them to the standard's walk. */
  function Offset(i: nat): nat {
    if i < 5 then Pick(i, 0, 1, 62, 28, 27)
    else if i < 10 then Pick(i - 5, 36, 44, 6, 55, 20)
    else if i < 15 then Pick(i - 10, 3, 10, 43, 25, 39)
    else if i < 20 then Pick(i - 15, 41, 45, 15, 21, 8)
    else Pick(i - 20, 18, 2, 61, 56, 14)
  }

  function Pick(x: nat, a: nat, b: nat, c: nat, d: nat, e: nat): nat {
    if x == 0 then a else if x == 1 then b else if x == 2 then c else if x == 3 then d else e
  }


  function Rho(w: nat, s: seq<seq<bit>>): (r: seq<seq<bit>>)
    requires Shaped(w, s)
    ensures Shaped(w, r)
  {
    seq(25, i requires 0 <= i < 25 => seq(w, z requires 0 <= z < w => s[i][Back(z, Offset(i), w)]))
  }

  function Pi(w: nat, s: seq<seq<bit>>): (r: seq<seq<bit>>)
    requires Shaped(w, s)
    ensures Shaped(w, r)
  {
    seq(25, i requires 0 <= i < 25 => s[5 * (i % 5) + (i % 5 + 3 * (i / 5)) % 5])
  }

  function Chi(w: nat, s: seq<seq<bit>>): (r: seq<seq<bit>>)
    requires Shaped(w, s)
    ensures Shaped(w, r)
  {
    seq(25, i requires 0 <= i < 25 => seq(w, z requires 0 <= z < w =>
      s[i][z] != (!s[i / 5 * 5 + (i % 5 + 1) % 5][z] && s[i / 5 * 5 + (i % 5 + 2) % 5][z])))
  }

  function Iota(w: nat, s: seq<seq<bit>>, rc: seq<bit>): seq<seq<bit>>
    requires Shaped(w, s) && |rc| == w
  {
    s[0 := seq(w, z requires 0 <= z < w => s[0][z] != rc[z])]
  }

  function Round(w: nat, s: seq<seq<bit>>, rc: seq<bit>): (r: seq<seq<bit>>)
    requires Shaped(w, s) && |rc| == w
    ensures Shaped(w, r)
  {
    Iota(w, Chi(w, Pi(w, Rho(w, Theta(w, s)))), rc)
  }

  // ----- lane by lane -----

  function ParityLane(s: seq<seq<bit>>, w: nat, x: nat): (r: seq<bit>)
    requires Shaped(w, s) && x < 5
    ensures |r| == w
  {
    Xor(Xor(Xor(Xor(s[x], s[5 + x]), s[10 + x]), s[15 + x]), s[20 + x])
  }

  function DLane(s: seq<seq<bit>>, w: nat, x: nat): (r: seq<bit>)
    requires Shaped(w, s) && x < 5
    ensures |r| == w
  {
    Xor(ParityLane(s, w, (x + 4) % 5), Rotl(ParityLane(s, w, (x + 1) % 5), 1))
  }

  /** Lane (x, y) before chi. */
  function BLane(s: seq<seq<bit>>, w: nat, x: nat, y: nat): (r: seq<bit>)
    requires Shaped(w, s) && x < 5 && y < 5
    ensures |r| == w
  {
    var j := 5 * x + (x + 3 * y) % 5;
    Rotl(Xor(s[j], DLane(s, w, j % 5)), Offset(j))
  }

  /** What chi makes of three lanes of a row. */
  function ChiLane(a: seq<bit>, b: seq<bit>, c: seq<bit>): (r: seq<bit>)
    requires |a| == |b| == |c|
    ensures |r| == |a|
  {
    Xor(a, And(Not(b), c))
  }

  lemma ParityBit(w: nat, s: seq<seq<bit>>, x: nat, z: nat)
    requires Shaped(w, s) && x < 5 && z < w
    ensures ParityLane(s, w, x)[z] == Parity(s, w, x, z)
  {
  }

  lemma ThetaLane(w: nat, s: seq<seq<bit>>, i: nat)
    requires Shaped(w, s) && i < 25
    ensures Theta(w, s)[i] == Xor(s[i], DLane(s, w, i % 5))
  {
    hide ParityLane, Parity, Back;
    var d, x1, x2 := DLane(s, w, i % 5), (i % 5 + 4) % 5, (i % 5 + 1) % 5;
    forall z | 0 <= z < w ensures Theta(w, s)[i][z] == Xor(s[i], d)[z] {
      ParityBit(w, s, x1, z);
      ParityBit(w, s, x2, Back(z, 1, w));
    }
  }

  lemma RhoLane(w: nat, s: seq<seq<bit>>, i: nat)
    requires Shaped(w, s) && i < 25
    ensures Rho(w, s)[i] == Rotl(s[i], Offset(i))
  {
    hide Back;
  }

  lemma Index(x: nat, y: nat)
    requires x < 5 && y < 5
    ensures 5 * y + x < 25 && (5 * y + x) % 5 == x && (5 * y + x) / 5 == y
  {
  }

  lemma BLaneIs(w: nat, s: seq<seq<bit>>, x: nat, y: nat)
    requires Shaped(w, s) && x < 5 && y < 5
    ensures Pi(w, Rho(w, Theta(w, s)))[5 * y + x] == BLane(s, w, x, y)
  {
    hide DLane, Xor, Rotl, Theta, Rho;
    Index(x, y);
    var j := 5 * x + (x + 3 * y) % 5;
    ThetaLane(w, s, j);
    RhoLane(w, Theta(w, s), j);
  }

  lemma ChiAt(w: nat, s: seq<seq<bit>>, x: nat, y: nat)
    requires Shaped(w, s) && x < 5 && y < 5
    ensures Chi(w, s)[5 * y + x] == ChiLane(s[5 * y + x], s[5 * y + (x + 1) % 5], s[5 * y + (x + 2) % 5])
  {
    Index(x, y);
  }

  lemma IotaAt(w: nat, s: seq<seq<bit>>, rc: seq<bit>, i: nat)
    requires Shaped(w, s) && |rc| == w && i < 25
    ensures Iota(w, s, rc)[i] == if i == 0 then Xor(s[i], rc) else s[i]
  {
  }

  /** Lane (x, y) after a round. */
  lemma RoundLane(w: nat, s: seq<seq<bit>>, rc: seq<bit>, x: nat, y: nat)
    requires Shaped(w, s) && |rc| == w && x < 5 && y < 5
    ensures
      var c := ChiLane(BLane(s, w, x, y), BLane(s, w, (x + 1) % 5, y), BLane(s, w, (x + 2) % 5, y));
      Round(w, s, rc)[5 * y + x] == if x == 0 && y == 0 then Xor(c, rc) else c
  {
    hide Theta, Rho, Pi, Chi, Iota, BLane, ChiLane, Xor;
    BLaneIs(w, s, x, y);
    BLaneIs(w, s, (x + 1) % 5, y);
    BLaneIs(w, s, (x + 2) % 5, y);
    var b := Pi(w, Rho(w, Theta(w, s)));
    ChiAt(w, b, x, y);
    IotaAt(w, Chi(w, b), rc, 5 * y + x);
  }

  /** One row after a round. */
  lemma RoundRow(w: nat, s: seq<seq<bit>>, rc: seq<bit>, y: nat)
    requires Shaped(w, s) && |rc| == w && y < 5
    ensures
      var r := Round(w, s, rc);
      var b0, b1, b2 := BLane(s, w, 0, y), BLane(s, w, 1, y), BLane(s, w, 2, y);
      var b3, b4 := BLane(s, w, 3, y), BLane(s, w, 4, y);
      && r[5 * y] == (if y == 0 then Xor(ChiLane(b0, b1, b2), rc) else ChiLane(b0, b1, b2))
      && r[5 * y + 1] == ChiLane(b1, b2, b3) && r[5 * y + 2] == ChiLane(b2, b3, b4)
      && r[5 * y + 3] == ChiLane(b3, b4, b0) && r[5 * y + 4] == ChiLane(b4, b0, b1)
  {
    hide Round, BLane, ChiLane, Xor;
    RoundLane(w, s, rc, 0, y);
    RoundLane(w, s, rc, 1, y);
    RoundLane(w, s, rc, 2, y);
    RoundLane(w, s, rc, 3, y);
    RoundLane(w, s, rc, 4, y);
  }

  lemma BRow0(s: seq<seq<bit>>, w: nat)
    requires Shaped(w, s)
    ensures BLane(s, w, 0, 0) == Rotl(Xor(s[0], DLane(s, w, 0)), 0)
    ensures BLane(s, w, 1, 0) == Rotl(Xor(s[6], DLane(s, w, 1)), 44)
    ensures BLane(s, w, 2, 0) == Rotl(Xor(s[12], DLane(s, w, 2)), 43)
    ensures BLane(s, w, 3, 0) == Rotl(Xor(s[18], DLane(s, w, 3)), 21)
    ensures BLane(s, w, 4, 0) == Rotl(Xor(s[24], DLane(s, w, 4)), 14)
  {
    hide Xor, Rotl, DLane;
  }

  lemma BRow1(s: seq<seq<bit>>, w: nat)
    requires Shaped(w, s)
    ensures BLane(s, w, 0, 1) == Rotl(Xor(s[3], DLane(s, w, 3)), 28)
    ensures BLane(s, w, 1, 1) == Rotl(Xor(s[9], DLane(s, w, 4)), 20)
    ensures BLane(s, w, 2, 1) == Rotl(Xor(s[10], DLane(s, w, 0)), 3)
    ensures BLane(s, w, 3, 1) == Rotl(Xor(s[16], DLane(s, w, 1)), 45)
    ensures BLane(s, w, 4, 1) == Rotl(Xor(s[22], DLane(s, w, 2)), 61)
  {
    hide Xor, Rotl, DLane;
  }

  lemma BRow2(s: seq<seq<bit>>, w: nat)
    requires Shaped(w, s)
    ensures BLane(s, w, 0, 2) == Rotl(Xor(s[1], DLane(s, w, 1)), 1)
    ensures BLane(s, w, 1, 2) == Rotl(Xor(s[7], DLane(s, w, 2)), 6)
    ensures BLane(s, w, 2, 2) == Rotl(Xor(s[13], DLane(s, w, 3)), 25)
    ensures BLane(s, w, 3, 2) == Rotl(Xor(s[19], DLane(s, w, 4)), 8)
    ensures BLane(s, w, 4, 2) == Rotl(Xor(s[20], DLane(s, w, 0)), 18)
  {
    hide Xor, Rotl, DLane;
  }

  lemma BRow3(s: seq<seq<bit>>, w: nat)
    requires Shaped(w, s)
    ensures BLane(s, w, 0, 3) == Rotl(Xor(s[4], DLane(s, w, 4)), 27)
    ensures BLane(s, w, 1, 3) == Rotl(Xor(s[5], DLane(s, w, 0)), 36)
    ensures BLane(s, w, 2, 3) == Rotl(Xor(s[11], DLane(s, w, 1)), 10)
    ensures BLane(s, w, 3, 3) == Rotl(Xor(s[17], DLane(s, w, 2)), 15)
    ensures BLane(s, w, 4, 3) == Rotl(Xor(s[23], DLane(s, w, 3)), 56)
  {
    hide Xor, Rotl, DLane;
  }

  lemma BRow4(s: seq<seq<bit>>, w: nat)
    requires Shaped(w, s)
    ensures BLane(s, w, 0, 4) == Rotl(Xor(s[2], DLane(s, w, 2)), 62)
    ensures BLane(s, w, 1, 4) == Rotl(Xor(s[8], DLane(s, w, 3)), 55)
    ensures BLane(s, w, 2, 4) == Rotl(Xor(s[14], DLane(s, w, 4)), 39)
    ensures BLane(s, w, 3, 4) == Rotl(Xor(s[15], DLane(s, w, 0)), 41)
    ensures BLane(s, w, 4, 4) == Rotl(Xor(s[21], DLane(s, w, 1)), 2)
  {
    hide Xor, Rotl, DLane;
  }

  lemma ParityLanes(s: seq<seq<bit>>, w: nat)
    requires Shaped(w, s)
    ensures ParityLane(s, w, 0) == Xor(Xor(Xor(Xor(s[0], s[5]), s[10]), s[15]), s[20])
    ensures ParityLane(s, w, 1) == Xor(Xor(Xor(Xor(s[1], s[6]), s[11]), s[16]), s[21])
    ensures ParityLane(s, w, 2) == Xor(Xor(Xor(Xor(s[2], s[7]), s[12]), s[17]), s[22])
    ensures ParityLane(s, w, 3) == Xor(Xor(Xor(Xor(s[3], s[8]), s[13]), s[18]), s[23])
    ensures ParityLane(s, w, 4) == Xor(Xor(Xor(Xor(s[4], s[9]), s[14]), s[19]), s[24])
  {
    hide Xor;
  }

  lemma DLanes(s: seq<seq<bit>>, w: nat)
    requires Shaped(w, s)
    ensures DLane(s, w, 0) == Xor(ParityLane(s, w, 4), Rotl(ParityLane(s, w, 1), 1))
    ensures DLane(s, w, 1) == Xor(ParityLane(s, w, 0), Rotl(ParityLane(s, w, 2), 1))
    ensures DLane(s, w, 2) == Xor(ParityLane(s, w, 1), Rotl(ParityLane(s, w, 3), 1))
    ensures DLane(s, w, 3) == Xor(ParityLane(s, w, 2), Rotl(ParityLane(s, w, 4), 1))
    ensures DLane(s, w, 4) == Xor(ParityLane(s, w, 3), Rotl(ParityLane(s, w, 0), 1))
  {
    hide Xor, Rotl, ParityLane;
  }

  lemma RotlZero(a: seq<bit>)
    requires |a| > 0
    ensures Rotl(a, 0) == a
  {
    forall z | 0 <= z < |a| ensures Back(z, 0, |a|) == z {
      DivModIs(z, 0, z, |a|);
    }
  }
  // ----- the code -----

  /** One of the two rounds of the loop of `keccakf1600`. */
  method UnrolledRound1600(s: seq<seq<bit>>, rc: seq<bit>) returns (e: seq<seq<bit>>)
    requires Shaped(64, s) && |rc| == 64
    ensures e == Round(64, s, rc)
  {
    hide Xor, And, Not, Rotl, Round, BLane, DLane, ParityLane;
    ParityLanes(s, 64);
    DLanes(s, 64);
    RotlZero(Xor(s[0], DLane(s, 64, 0)));
    BRow0(s, 64);
    BRow1(s, 64);
    BRow2(s, 64);
    BRow3(s, 64);
    BRow4(s, 64);
    var aba, abe, abi, abo, abu := s[0], s[1], s[2], s[3], s[4];
    var aga, age, agi, ago, agu := s[5], s[6], s[7], s[8], s[9];
    var aka, ake, aki, ako, aku := s[10], s[11], s[12], s[13], s[14];
    var ama, ame, ami, amo, amu := s[15], s[16], s[17], s[18], s[19];
    var asa, ase, asi, aso, asu := s[20], s[21], s[22], s[23], s[24];

    var ba := Xor(Xor(Xor(Xor(aba, aga), aka), ama), asa);
    var be := Xor(Xor(Xor(Xor(abe, age), ake), ame), ase);
    var bi := Xor(Xor(Xor(Xor(abi, agi), aki), ami), asi);
    var bo := Xor(Xor(Xor(Xor(abo, ago), ako), amo), aso);
    var bu := Xor(Xor(Xor(Xor(abu, agu), aku), amu), asu);

    var da := Xor(bu, Rotl(be, 1));
    var de := Xor(ba, Rotl(bi, 1));
    var di := Xor(be, Rotl(bo, 1));
    var do := Xor(bi, Rotl(bu, 1));
    var du := Xor(bo, Rotl(ba, 1));

    ba := Xor(aba, da);
    be := Rotl(Xor(age, de), 44);
    bi := Rotl(Xor(aki, di), 43);
    bo := Rotl(Xor(amo, do), 21);
    bu := Rotl(Xor(asu, du), 14);
    var eba := Xor(Xor(ba, And(Not(be), bi)), rc);
    var ebe := Xor(be, And(Not(bi), bo));
    var ebi := Xor(bi, And(Not(bo), bu));
    var ebo := Xor(bo, And(Not(bu), ba));
    var ebu := Xor(bu, And(Not(ba), be));

    ba := Rotl(Xor(abo, do), 28);
    be := Rotl(Xor(agu, du), 20);
    bi := Rotl(Xor(aka, da), 3);
    bo := Rotl(Xor(ame, de), 45);
    bu := Rotl(Xor(asi, di), 61);
    var ega := Xor(ba, And(Not(be), bi));
    var ege := Xor(be, And(Not(bi), bo));
    var egi := Xor(bi, And(Not(bo), bu));
    var ego := Xor(bo, And(Not(bu), ba));
    var egu := Xor(bu, And(Not(ba), be));

    ba := Rotl(Xor(abe, de), 1);
    be := Rotl(Xor(agi, di), 6);
    bi := Rotl(Xor(ako, do), 25);
    bo := Rotl(Xor(amu, du), 8);
    bu := Rotl(Xor(asa, da), 18);
    var eka := Xor(ba, And(Not(be), bi));
    var eke := Xor(be, And(Not(bi), bo));
    var eki := Xor(bi, And(Not(bo), bu));
    var eko := Xor(bo, And(Not(bu), ba));
    var eku := Xor(bu, And(Not(ba), be));

    ba := Rotl(Xor(abu, du), 27);
    be := Rotl(Xor(aga, da), 36);
    bi := Rotl(Xor(ake, de), 10);
    bo := Rotl(Xor(ami, di), 15);
    bu := Rotl(Xor(aso, do), 56);
    var ema := Xor(ba, And(Not(be), bi));
    var eme := Xor(be, And(Not(bi), bo));
    var emi := Xor(bi, And(Not(bo), bu));
    var emo := Xor(bo, And(Not(bu), ba));
    var emu := Xor(bu, And(Not(ba), be));

    ba := Rotl(Xor(abi, di), 62);
    be := Rotl(Xor(ago, do), 55);
    bi := Rotl(Xor(aku, du), 39);
    bo := Rotl(Xor(ama, da), 41);
    bu := Rotl(Xor(ase, de), 2);
    var esa := Xor(ba, And(Not(be), bi));
    var ese := Xor(be, And(Not(bi), bo));
    var esi := Xor(bi, And(Not(bo), bu));
    var eso := Xor(bo, And(Not(bu), ba));
    var esu := Xor(bu, And(Not(ba), be));

    e := [eba, ebe, ebi, ebo, ebu, ega, ege, egi, ego, egu, eka, eke, eki, eko, eku,
          ema, eme, emi, emo, emu, esa, ese, esi, eso, esu];
    RoundRow(64, s, rc, 0);
    RoundRow(64, s, rc, 1);
    RoundRow(64, s, rc, 2);
    RoundRow(64, s, rc, 3);
    RoundRow(64, s, rc, 4);
  }

  lemma Modulo32(z: int, k: nat)
    ensures (z - k % 32) % 32 == (z - k) % 32
  {
  }

  /** In lanes of 32 bits, rotating by a count modulo 32 is rotating by the count. */
  lemma RotlModulo(a: seq<bit>, k: nat)
    requires |a| == 32
    ensures Rotl(a, k % 32) == Rotl(a, k)
  {
    forall z | 0 <= z < 32 ensures Back(z, k % 32, 32) == Back(z, k, 32) {
      Modulo32(z, k);
    }
  }

  lemma CRow0(s: seq<seq<bit>>)
    requires Shaped(32, s)
    ensures BLane(s, 32, 0, 0) == Rotl(Xor(s[0], DLane(s, 32, 0)), 0)
    ensures BLane(s, 32, 1, 0) == Rotl(Xor(s[6], DLane(s, 32, 1)), 12)
    ensures BLane(s, 32, 2, 0) == Rotl(Xor(s[12], DLane(s, 32, 2)), 11)
    ensures BLane(s, 32, 3, 0) == Rotl(Xor(s[18], DLane(s, 32, 3)), 21)
    ensures BLane(s, 32, 4, 0) == Rotl(Xor(s[24], DLane(s, 32, 4)), 14)
  {
    hide Xor, Rotl, DLane, BLane;
    BRow0(s, 32);
    RotlModulo(Xor(s[6], DLane(s, 32, 1)), 44);
    RotlModulo(Xor(s[12], DLane(s, 32, 2)), 43);
  }

  lemma CRow1(s: seq<seq<bit>>)
    requires Shaped(32, s)
    ensures BLane(s, 32, 0, 1) == Rotl(Xor(s[3], DLane(s, 32, 3)), 28)
    ensures BLane(s, 32, 1, 1) == Rotl(Xor(s[9], DLane(s, 32, 4)), 20)
    ensures BLane(s, 32, 2, 1) == Rotl(Xor(s[10], DLane(s, 32, 0)), 3)
    ensures BLane(s, 32, 3, 1) == Rotl(Xor(s[16], DLane(s, 32, 1)), 13)
    ensures BLane(s, 32, 4, 1) == Rotl(Xor(s[22], DLane(s, 32, 2)), 29)
  {
    hide Xor, Rotl, DLane, BLane;
    BRow1(s, 32);
    RotlModulo(Xor(s[16], DLane(s, 32, 1)), 45);
    RotlModulo(Xor(s[22], DLane(s, 32, 2)), 61);
  }

  lemma CRow2(s: seq<seq<bit>>)
    requires Shaped(32, s)
    ensures BLane(s, 32, 0, 2) == Rotl(Xor(s[1], DLane(s, 32, 1)), 1)
    ensures BLane(s, 32, 1, 2) == Rotl(Xor(s[7], DLane(s, 32, 2)), 6)
    ensures BLane(s, 32, 2, 2) == Rotl(Xor(s[13], DLane(s, 32, 3)), 25)
    ensures BLane(s, 32, 3, 2) == Rotl(Xor(s[19], DLane(s, 32, 4)), 8)
    ensures BLane(s, 32, 4, 2) == Rotl(Xor(s[20], DLane(s, 32, 0)), 18)
  {
    hide Xor, Rotl, DLane, BLane;
    BRow2(s, 32);
  }

  lemma CRow3(s: seq<seq<bit>>)
    requires Shaped(32, s)
    ensures BLane(s, 32, 0, 3) == Rotl(Xor(s[4], DLane(s, 32, 4)), 27)
    ensures BLane(s, 32, 1, 3) == Rotl(Xor(s[5], DLane(s, 32, 0)), 4)
    ensures BLane(s, 32, 2, 3) == Rotl(Xor(s[11], DLane(s, 32, 1)), 10)
    ensures BLane(s, 32, 3, 3) == Rotl(Xor(s[17], DLane(s, 32, 2)), 15)
    ensures BLane(s, 32, 4, 3) == Rotl(Xor(s[23], DLane(s, 32, 3)), 24)
  {
    hide Xor, Rotl, DLane, BLane;
    BRow3(s, 32);
    RotlModulo(Xor(s[5], DLane(s, 32, 0)), 36);
    RotlModulo(Xor(s[23], DLane(s, 32, 3)), 56);
  }

  lemma CRow4(s: seq<seq<bit>>)
    requires Shaped(32, s)
    ensures BLane(s, 32, 0, 4) == Rotl(Xor(s[2], DLane(s, 32, 2)), 30)
    ensures BLane(s, 32, 1, 4) == Rotl(Xor(s[8], DLane(s, 32, 3)), 23)
    ensures BLane(s, 32, 2, 4) == Rotl(Xor(s[14], DLane(s, 32, 4)), 7)
    ensures BLane(s, 32, 3, 4) == Rotl(Xor(s[15], DLane(s, 32, 0)), 9)
    ensures BLane(s, 32, 4, 4) == Rotl(Xor(s[21], DLane(s, 32, 1)), 2)
  {
    hide Xor, Rotl, DLane, BLane;
    BRow4(s, 32);
    RotlModulo(Xor(s[2], DLane(s, 32, 2)), 62);
    RotlModulo(Xor(s[8], DLane(s, 32, 3)), 55);
    RotlModulo(Xor(s[14], DLane(s, 32, 4)), 39);
    RotlModulo(Xor(s[15], DLane(s, 32, 0)), 41);
  }

  /** One of the two rounds of the loop of `keccakf800`, whose rotation counts are its own. */
  method UnrolledRound800(s: seq<seq<bit>>, rc: seq<bit>) returns (e: seq<seq<bit>>)
    requires Shaped(32, s) && |rc| == 32
    ensures e == Round(32, s, rc)
  {
    hide Xor, And, Not, Rotl, Round, BLane, DLane, ParityLane;
    ParityLanes(s, 32);
    DLanes(s, 32);
    RotlZero(Xor(s[0], DLane(s, 32, 0)));
    CRow0(s);
    CRow1(s);
    CRow2(s);
    CRow3(s);
    CRow4(s);
    var aba, abe, abi, abo, abu := s[0], s[1], s[2], s[3], s[4];
    var aga, age, agi, ago, agu := s[5], s[6], s[7], s[8], s[9];
    var aka, ake, aki, ako, aku := s[10], s[11], s[12], s[13], s[14];
    var ama, ame, ami, amo, amu := s[15], s[16], s[17], s[18], s[19];
    var asa, ase, asi, aso, asu := s[20], s[21], s[22], s[23], s[24];

    var ba := Xor(Xor(Xor(Xor(aba, aga), aka), ama), asa);
    var be := Xor(Xor(Xor(Xor(abe, age), ake), ame), ase);
    var bi := Xor(Xor(Xor(Xor(abi, agi), aki), ami), asi);
    var bo := Xor(Xor(Xor(Xor(abo, ago), ako), amo), aso);
    var bu := Xor(Xor(Xor(Xor(abu, agu), aku), amu), asu);

    var da := Xor(bu, Rotl(be, 1));
    var de := Xor(ba, Rotl(bi, 1));
    var di := Xor(be, Rotl(bo, 1));
    var do := Xor(bi, Rotl(bu, 1));
    var du := Xor(bo, Rotl(ba, 1));

    ba := Xor(aba, da);
    be := Rotl(Xor(age, de), 12);
    bi := Rotl(Xor(aki, di), 11);
    bo := Rotl(Xor(amo, do), 21);
    bu := Rotl(Xor(asu, du), 14);
    var eba := Xor(Xor(ba, And(Not(be), bi)), rc);
    var ebe := Xor(be, And(Not(bi), bo));
    var ebi := Xor(bi, And(Not(bo), bu));
    var ebo := Xor(bo, And(Not(bu), ba));
    var ebu := Xor(bu, And(Not(ba), be));

    ba := Rotl(Xor(abo, do), 28);
    be := Rotl(Xor(agu, du), 20);
    bi := Rotl(Xor(aka, da), 3);
    bo := Rotl(Xor(ame, de), 13);
    bu := Rotl(Xor(asi, di), 29);
    var ega := Xor(ba, And(Not(be), bi));
    var ege := Xor(be, And(Not(bi), bo));
    var egi := Xor(bi, And(Not(bo), bu));
    var ego := Xor(bo, And(Not(bu), ba));
    var egu := Xor(bu, And(Not(ba), be));

    ba := Rotl(Xor(abe, de), 1);
    be := Rotl(Xor(agi, di), 6);
    bi := Rotl(Xor(ako, do), 25);
    bo := Rotl(Xor(amu, du), 8);
    bu := Rotl(Xor(asa, da), 18);
    var eka := Xor(ba, And(Not(be), bi));
    var eke := Xor(be, And(Not(bi), bo));
    var eki := Xor(bi, And(Not(bo), bu));
    var eko := Xor(bo, And(Not(bu), ba));
    var eku := Xor(bu, And(Not(ba), be));

    ba := Rotl(Xor(abu, du), 27);
    be := Rotl(Xor(aga, da), 4);
    bi := Rotl(Xor(ake, de), 10);
    bo := Rotl(Xor(ami, di), 15);
    bu := Rotl(Xor(aso, do), 24);
    var ema := Xor(ba, And(Not(be), bi));
    var eme := Xor(be, And(Not(bi), bo));
    var emi := Xor(bi, And(Not(bo), bu));
    var emo := Xor(bo, And(Not(bu), ba));
    var emu := Xor(bu, And(Not(ba), be));

    ba := Rotl(Xor(abi, di), 30);
    be := Rotl(Xor(ago, do), 23);
    bi := Rotl(Xor(aku, du), 7);
    bo := Rotl(Xor(ama, da), 9);
    bu := Rotl(Xor(ase, de), 2);
    var esa := Xor(ba, And(Not(be), bi));
    var ese := Xor(be, And(Not(bi), bo));
    var esi := Xor(bi, And(Not(bo), bu));
    var eso := Xor(bo, And(Not(bu), ba));
    var esu := Xor(bu, And(Not(ba), be));

    e := [eba, ebe, ebi, ebo, ebu, ega, ege, egi, ego, egu, eka, eke, eki, eko, eku,
          ema, eme, emi, emo, emu, esa, ese, esi, eso, esu];
    RoundRow(32, s, rc, 0);
    RoundRow(32, s, rc, 1);
    RoundRow(32, s, rc, 2);
    RoundRow(32, s, rc, 3);
    RoundRow(32, s, rc, 4);
  }

  // ----- the rotations are those of section 3.2.2 -----

  /** The lane that step 3 of rho reaches after `t` moves. */
  function Walk(t: nat): (nat, nat) {
    if t == 0 then (1, 0)
    else
      var (x, y) := Walk(t - 1);
      (y, (2 * x + 3 * y) % 5)
  }

  /** `(t + 1) * (t + 2) / 2`. */
  function Triangle(t: nat): nat {
    if t == 0 then 1 else Triangle(t - 1) + t + 1
  }

  lemma {:induction false} TriangleIs(t: nat)
    ensures 2 * Triangle(t) == (t + 1) * (t + 2)
  {
    if t > 0 {
      TriangleIs(t - 1);
    }
  }

  /** The index of that lane. */
  function Place(t: nat): nat {
    5 * Walk(t).1 + Walk(t).0
  }

  ghost predicate Agrees(t: nat) {
    Walk(t).0 < 5 && Walk(t).1 < 5 && Offset(Place(t)) == Triangle(t) % 64
  }

  lemma WalkOn(t: nat, x: nat, y: nat, n: nat)
    requires Walk(t) == (x, y) && Triangle(t) == n && x < 5 && y < 5 && Offset(5 * y + x) == n % 64
    ensures Agrees(t) && Place(t) == 5 * y + x
    ensures Walk(t + 1) == (y, (2 * x + 3 * y) % 5) && Triangle(t + 1) == n + t + 2
  {
  }

  lemma WalkStarts()
    ensures Walk(0) == (1, 0) && Triangle(0) == 1
  {
  }

  lemma Walk0()
    ensures forall t :: 0 <= t < 8 ==> Agrees(t)
    ensures Place(0) == 1 && Place(1) == 10 && Place(2) == 7 && Place(3) == 11
    ensures Place(4) == 17 && Place(5) == 18 && Place(6) == 3 && Place(7) == 5
    ensures Walk(8) == (1, 3) && Triangle(8) == 45
  {
    hide Walk, Triangle, Agrees, Place;
    WalkStarts();
    WalkOn(0, 1, 0, 1);
    WalkOn(1, 0, 2, 3);
    WalkOn(2, 2, 1, 6);
    WalkOn(3, 1, 2, 10);
    WalkOn(4, 2, 3, 15);
    WalkOn(5, 3, 3, 21);
    WalkOn(6, 3, 0, 28);
    WalkOn(7, 0, 1, 36);
  }

  lemma Walk8()
    requires Walk(8) == (1, 3) && Triangle(8) == 45
    ensures forall t :: 8 <= t < 16 ==> Agrees(t)
    ensures Place(8) == 16 && Place(9) == 8 && Place(10) == 21 && Place(11) == 24
    ensures Place(12) == 4 && Place(13) == 15 && Place(14) == 23 && Place(15) == 19
    ensures Walk(16) == (3, 2) && Triangle(16) == 153
  {
    hide Walk, Triangle, Agrees, Place;
    WalkOn(8, 1, 3, 45);
    WalkOn(9, 3, 1, 55);
    WalkOn(10, 1, 4, 66);
    WalkOn(11, 4, 4, 78);
    WalkOn(12, 4, 0, 91);
    WalkOn(13, 0, 3, 105);
    WalkOn(14, 3, 4, 120);
    WalkOn(15, 4, 3, 136);
  }

  lemma Walk16()
    requires Walk(16) == (3, 2) && Triangle(16) == 153
    ensures forall t :: 16 <= t < 24 ==> Agrees(t)
    ensures Place(16) == 13 && Place(17) == 12 && Place(18) == 2 && Place(19) == 20
    ensures Place(20) == 14 && Place(21) == 22 && Place(22) == 9 && Place(23) == 6
    ensures Walk(24) == (1, 0) && Triangle(24) == 325
  {
    hide Walk, Triangle, Agrees, Place;
    WalkOn(16, 3, 2, 153);
    WalkOn(17, 2, 2, 171);
    WalkOn(18, 2, 0, 190);
    WalkOn(19, 0, 4, 210);
    WalkOn(20, 4, 2, 231);
    WalkOn(21, 2, 4, 253);
    WalkOn(22, 4, 1, 276);
    WalkOn(23, 1, 1, 300);
  }

  /** Every lane is rotated as step 3 of rho says. */
  lemma OffsetsAreTheStandards(t: nat)
    requires t < 24
    ensures Agrees(t) && Offset(0) == 0
  {
    hide Walk, Triangle, Agrees, Place;
    Walk0();
    Walk8();
    Walk16();
  }

  /** The walk reaches every lane but the first. */
  lemma EveryLaneReached(i: nat) returns (t: nat)
    requires 1 <= i < 25
    ensures t < 24 && Place(t) == i
  {
    hide Walk, Triangle, Agrees, Place;
    Walk0();
    Walk8();
    Walk16();
    t := [0, 18, 6, 12, 7, 23, 2, 9, 22, 1, 3, 17, 16, 20, 13, 8, 4, 5, 15, 19, 10, 21, 14, 11][i - 1];
  }

  lemma Modulo64(z: int, k: nat)
    ensures (z - k % 64) % 64 == (z - k) % 64 && (z - k % 64) % 32 == (z - k) % 32
  {
  }

  /** So step `t` of rho rotates its lane by `(t + 1) * (t + 2) / 2`, in lanes of 64 and of 32 bits. */
  lemma RhoIsTheStandards(a: seq<bit>, t: nat)
    requires (|a| == 64 || |a| == 32) && t < 24
    ensures Rotl(a, Offset(Place(t))) == Rotl(a, Triangle(t))
  {
    hide Walk, Triangle, Place, Offset;
    OffsetsAreTheStandards(t);
    var k := Triangle(t);
    forall z | 0 <= z < |a| ensures Back(z, k % 64, |a|) == Back(z, k, |a|) {
      Modulo64(z, k);
      assert Back(z, k, |a|) == if |a| == 64 then (z - k) % 64 else (z - k) % 32;
    }
  }

  // ----- the round constants are those of section 3.2.5 -----

  /** The eight bits of the shift register. */
  datatype Register = Reg(b0: bool, b1: bool, b2: bool, b3: bool, b4: bool, b5: bool, b6: bool, b7: bool)

  function LfsrStep(r: Register): Register {
    Reg(r.b7, r.b0, r.b1, r.b2, r.b3 != r.b7, r.b4 != r.b7, r.b5 != r.b7, r.b6)
  }

  function Lfsr(t: nat): Register {
    if t == 0 then Reg(true, false, false, false, false, false, false, false) else LfsrStep(Lfsr(t - 1))
  }

  /** `rc(t)`. */
  function Rc(t: nat): bool {
    Lfsr(t % 255).b0
  }

  /** `RC` of round `i`: bit `2^j - 1` is `rc(j + 7 * i)`. */
  function RoundConstant(w: nat, i: nat): (r: seq<bit>)
    ensures |r| == w
  {
    seq(w, z requires 0 <= z < w =>
      (z == 0 && Rc(7 * i)) || (z == 1 && Rc(7 * i + 1)) || (z == 3 && Rc(7 * i + 2)) || (z == 7 && Rc(7 * i + 3))
      || (z == 15 && Rc(7 * i + 4)) || (z == 31 && Rc(7 * i + 5)) || (z == 63 && Rc(7 * i + 6)))
  }

  function Choose(i: int, a: nat, b: nat, c: nat, d: nat): nat {
    if i == 0 then a else if i == 1 then b else if i == 2 then c else d
  }

  /** `round_constants_64`. */
  function Constant64(i: nat): nat {
    if i < 4 then
      Choose(i, 0x0000_0000_0000_0001, 0x0000_0000_0000_8082, 0x8000_0000_0000_808a, 0x8000_0000_8000_8000)
    else if i < 8 then
      Choose(i - 4, 0x0000_0000_0000_808b, 0x0000_0000_8000_0001, 0x8000_0000_8000_8081, 0x8000_0000_0000_8009)
    else if i < 12 then
      Choose(i - 8, 0x0000_0000_0000_008a, 0x0000_0000_0000_0088, 0x0000_0000_8000_8009, 0x0000_0000_8000_000a)
    else if i < 16 then
      Choose(i - 12, 0x0000_0000_8000_808b, 0x8000_0000_0000_008b, 0x8000_0000_0000_8089, 0x8000_0000_0000_8003)
    else if i < 20 then
      Choose(i - 16, 0x8000_0000_0000_8002, 0x8000_0000_0000_0080, 0x0000_0000_0000_800a, 0x8000_0000_8000_000a)
    else
      Choose(i - 20, 0x8000_0000_8000_8081, 0x8000_0000_0000_8080, 0x0000_0000_8000_0001, 0x8000_0000_8000_8008)
  }

  /** `round_constants_32`. */
  function Constant32(i: nat): nat {
    if i < 4 then Choose(i, 0x0000_0001, 0x0000_8082, 0x0000_808a, 0x8000_8000)
    else if i < 8 then Choose(i - 4, 0x0000_808b, 0x8000_0001, 0x8000_8081, 0x0000_8009)
    else if i < 12 then Choose(i - 8, 0x0000_008a, 0x0000_0088, 0x8000_8009, 0x8000_000a)
    else if i < 16 then Choose(i - 12, 0x8000_808b, 0x0000_008b, 0x0000_8089, 0x0000_8003)
    else if i < 20 then Choose(i - 16, 0x0000_8002, 0x0000_0080, 0x0000_800a, 0x8000_000a)
    else Choose(i - 20, 0x8000_8081, 0x0000_8080, 0x8000_0001, 0x8000_8008)
  }

  /** The bits of a number, least significant first. */
  function Binary(w: nat, n: nat): (r: seq<bit>)
    ensures |r| == w
  {
    seq(w, z requires 0 <= z < w => BitAt(n, z))
  }

  function One(b: bool): nat {
    if b then 1 else 0
  }

  /** Seven bits, for positions 0, 1, 3, 7, 15, 31 and 63 of a constant. */
  datatype SevenBits = SevenBits(c0: bool, c1: bool, c2: bool, c3: bool, c4: bool, c5: bool, c6: bool)

  /** The number with these bits. */
  function Sparse(b: SevenBits): nat {
    One(b.c0) + 2 * (One(b.c1) + 4 * (One(b.c2) + 16 * (One(b.c3) + 256 * (One(b.c4) + 0x1_0000 * (One(b.c5)
    + 0x1_0000_0000 * One(b.c6))))))
  }

  /** The next seven outputs of the register. */
  function Seven(t: nat): SevenBits {
    SevenBits(Lfsr(t).b0, Lfsr(t + 1).b0, Lfsr(t + 2).b0, Lfsr(t + 3).b0, Lfsr(t + 4).b0, Lfsr(t + 5).b0,
              Lfsr(t + 6).b0)
  }

  /** The same from its contents, and its contents seven steps later. */
  function SevenOut(r: Register): SevenBits {
    SevenBits(r.b0, r.b7, r.b6, r.b5 != r.b7, (r.b4 != r.b6) != r.b7, (r.b3 != r.b5) != r.b6, (r.b2 != r.b4) != r.b5)
  }

  function SevenOn(r: Register): Register {
    Reg((r.b1 != r.b3) != r.b4, (r.b2 != r.b4) != r.b5, (r.b3 != r.b5) != r.b6, (r.b4 != r.b6) != r.b7,
        (((r.b1 != r.b3) != r.b4) != r.b5) != r.b7, (((r.b1 != r.b2) != r.b3) != r.b5) != r.b6,
        ((r.b1 != r.b2) != r.b6) != r.b7, ((r.b0 != r.b2) != r.b3) != r.b7)
  }

  function TwoOn(r: Register): Register {
    Reg(r.b6, r.b7, r.b0, r.b1, r.b2 != r.b6, (r.b3 != r.b6) != r.b7, (r.b4 != r.b6) != r.b7, r.b5 != r.b7)
  }

  function FourOn(r: Register): Register {
    Reg((r.b4 != r.b6) != r.b7, r.b5 != r.b7, r.b6, r.b7, ((r.b0 != r.b4) != r.b6) != r.b7,
        ((r.b1 != r.b4) != r.b5) != r.b6, (r.b2 != r.b4) != r.b5, (r.b3 != r.b5) != r.b6)
  }

  lemma TwoSteps(r: Register)
    ensures LfsrStep(LfsrStep(r)) == TwoOn(r)
  {
  }

  lemma FourSteps(r: Register)
    ensures TwoOn(TwoOn(r)) == FourOn(r)
  {
  }

  lemma SevenSteps(r: Register)
    ensures LfsrStep(TwoOn(FourOn(r))) == SevenOn(r)
    ensures SevenOut(r) == SevenBits(r.b0, LfsrStep(r).b0, TwoOn(r).b0, LfsrStep(TwoOn(r)).b0, FourOn(r).b0,
                                     LfsrStep(FourOn(r)).b0, TwoOn(FourOn(r)).b0)
  {
  }

  lemma LfsrSeven(t: nat)
    ensures Seven(t) == SevenOut(Lfsr(t)) && Lfsr(t + 7) == SevenOn(Lfsr(t))
  {
    hide Lfsr, LfsrStep, TwoOn, FourOn, SevenOn, SevenOut;
    var r := Lfsr(t);
    LfsrNext(t);
    LfsrNext(t + 1);
    LfsrNext(t + 2);
    LfsrNext(t + 3);
    LfsrNext(t + 4);
    LfsrNext(t + 5);
    LfsrNext(t + 6);
    TwoSteps(r);
    TwoSteps(TwoOn(r));
    FourSteps(r);
    TwoSteps(FourOn(r));
    SevenSteps(r);
  }

  lemma LfsrNext(t: nat)
    ensures Lfsr(t + 1) == LfsrStep(Lfsr(t))
  {
    hide LfsrStep;
  }

  /** Both tables hold the constant of round `i`. */
  ghost predicate InTables(i: nat)
    requires i < 24
  {
    Constant64(i) == Sparse(Seven(7 * i)) && Constant32(i) == Sparse(Seven(7 * i).(c6 := false))
  }

  /** The register at the start of round `i`. */
  predicate At(i: nat, r: Register) {
    Lfsr(7 * i) == r
  }

  lemma Check(i: nat, r: Register)
    requires i < 24 && At(i, r)
    requires Constant64(i) == Sparse(SevenOut(r)) && Constant32(i) == Sparse(SevenOut(r).(c6 := false))
    ensures InTables(i) && At(i + 1, SevenOn(r))
  {
    hide Constant64, Constant32, Sparse, SevenOut, SevenOn, Seven, Lfsr;
    LfsrSeven(7 * i);
  }

  lemma LfsrStarts()
    ensures At(0, Reg(true, false, false, false, false, false, false, false))
  {
  }

  lemma Tables0()
    ensures forall i :: 0 <= i < 3 ==> InTables(i)
    ensures At(3, Reg(false, true, false, true, true, false, false, false))
  {
    hide At, InTables;
    LfsrStarts();
    Check(0, Reg(true, false, false, false, false, false, false, false));
    Check(1, Reg(false, false, false, false, false, false, false, true));
    Check(2, Reg(false, false, false, true, true, false, true, true));
  }

  lemma Tables3()
    requires At(3, Reg(false, true, false, true, true, false, false, false))
    ensures forall i :: 3 <= i < 6 ==> InTables(i)
    ensures At(6, Reg(true, false, true, false, true, true, false, false))
  {
    hide At, InTables;
    Check(3, Reg(false, true, false, true, true, false, false, false));
    Check(4, Reg(true, true, true, true, true, false, true, true));
    Check(5, Reg(true, false, false, true, false, false, false, false));
  }

  lemma Tables6()
    requires At(6, Reg(true, false, true, false, true, true, false, false))
    ensures forall i :: 6 <= i < 9 ==> InTables(i)
    ensures At(9, Reg(false, false, false, false, true, true, true, false))
  {
    hide At, InTables;
    Check(6, Reg(true, false, true, false, true, true, false, false));
    Check(7, Reg(true, true, true, true, false, false, true, false));
    Check(8, Reg(false, true, false, true, false, false, true, true));
  }

  lemma Tables9()
    requires At(9, Reg(false, false, false, false, true, true, true, false))
    ensures forall i :: 9 <= i < 12 ==> InTables(i)
    ensures At(12, Reg(true, false, true, false, true, false, true, true))
  {
    hide At, InTables;
    Check(9, Reg(false, false, false, false, true, true, true, false));
    Check(10, Reg(true, false, false, false, false, false, true, false));
    Check(11, Reg(false, false, true, true, false, true, true, true));
  }

  lemma Tables12()
    requires At(12, Reg(true, false, true, false, true, false, true, true))
    ensures forall i :: 12 <= i < 15 ==> InTables(i)
    ensures At(15, Reg(true, true, false, true, false, true, false, true))
  {
    hide At, InTables;
    Check(12, Reg(true, false, true, false, true, false, true, true));
    Check(13, Reg(true, false, true, true, false, false, true, true));
    Check(14, Reg(true, true, false, false, false, true, true, false));
  }

  lemma Tables15()
    requires At(15, Reg(true, true, false, true, false, true, false, true))
    ensures forall i :: 15 <= i < 18 ==> InTables(i)
    ensures At(18, Reg(false, true, false, false, true, true, true, true))
  {
    hide At, InTables;
    Check(15, Reg(true, true, false, true, false, true, false, true));
    Check(16, Reg(false, true, false, true, false, true, false, true));
    Check(17, Reg(false, true, false, true, false, true, false, false));
  }

  lemma Tables18()
    requires At(18, Reg(false, true, false, false, true, true, true, true))
    ensures forall i :: 18 <= i < 21 ==> InTables(i)
    ensures At(21, Reg(false, true, true, true, true, true, false, false))
  {
    hide At, InTables;
    Check(18, Reg(false, true, false, false, true, true, true, true));
    Check(19, Reg(false, false, false, true, false, true, true, true));
    Check(20, Reg(true, true, true, false, true, true, false, false));
  }

  lemma Tables21()
    requires At(21, Reg(false, true, true, true, true, true, false, false))
    ensures forall i :: 21 <= i < 24 ==> InTables(i)
    ensures At(24, Reg(false, true, true, true, false, false, false, true))
  {
    hide At, InTables;
    Check(21, Reg(false, true, true, true, true, true, false, false));
    Check(22, Reg(true, true, false, true, false, false, false, false));
    Check(23, Reg(false, false, true, false, false, false, true, false));
  }

  /** The constants of both tables are those of the standard. */
  lemma TablesAreTheStandards(i: nat)
    requires i < 24
    ensures InTables(i)
  {
    hide At, InTables;
    Tables0();
    Tables3();
    Tables6();
    Tables9();
    Tables12();
    Tables15();
    Tables18();
    Tables21();
  }

  // ----- constants as lanes -----

  /** A bit below the bits of `m`, which start at position `g`. */
  function Above(b: bool, g: nat, m: nat): nat {
    One(b) + Shl(m, g)
  }

  lemma BitAbove(b: bool, g: nat, m: nat, z: nat)
    requires g > 0
    ensures BitAt(Above(b, g, m), z) <==> (if z == 0 then b else z >= g && BitAt(m, z - g))
  {
    hide Shl, Shr, Pow2;
    var n := Above(b, g, m);
    Pow2Positive(g);
    EvenAbove(m, g);
    if z == 0 {
      ShiftByNone(n);
    } else if z < g {
      ShlShl(m, g - z, z);
      Pow2Positive(z);
      ShrOfSum(Shl(m, g - z), One(b), z);
      EvenAbove(m, g - z);
    } else {
      ShrOfSum(m, One(b), g);
      ShrShr(n, g, z - g);
    }
  }

  lemma Pow2Positive(k: nat)
    requires k > 0
    ensures Pow2(k) >= 2
  {
  }

  lemma EvenAbove(m: nat, g: nat)
    requires g > 0
    ensures Shl(m, g) % 2 == 0
  {
    ShlDouble(m, g - 1);
    ShlShl(m, 1, g - 1);
  }

  /** The upper four of the seven bits, from position 7 on. */
  function Upper(b: SevenBits): nat {
    Above(b.c3, 8, Above(b.c4, 16, Above(b.c5, 32, Above(b.c6, 1, 0))))
  }

  lemma UpperIs(b: SevenBits)
    ensures Upper(b) == One(b.c3) + 256 * (One(b.c4) + 0x1_0000 * (One(b.c5) + 0x1_0000_0000 * One(b.c6)))
  {
    hide Shl;
    var m6 := Above(b.c6, 1, 0);
    var m5 := Above(b.c5, 32, m6);
    GapShifts(0);
    GapShifts(m6);
    GapShifts(m5);
    GapShifts(Above(b.c4, 16, m5));
  }

  lemma SparseIs(b: SevenBits)
    ensures Sparse(b) == Above(b.c0, 1, Above(b.c1, 2, Above(b.c2, 4, Upper(b))))
  {
    hide Shl, Upper;
    UpperIs(b);
    GapShifts(Upper(b));
    GapShifts(Above(b.c2, 4, Upper(b)));
    GapShifts(Above(b.c1, 2, Above(b.c2, 4, Upper(b))));
  }

  lemma UpperBit(b: SevenBits, z: nat)
    ensures BitAt(Upper(b), z) <==> (z == 0 && b.c3) || (z == 8 && b.c4) || (z == 24 && b.c5) || (z == 56 && b.c6)
  {
    hide BitAt, Above;
    var m6 := Above(b.c6, 1, 0);
    var m5 := Above(b.c5, 32, m6);
    BitAbove(b.c3, 8, Above(b.c4, 16, m5), z);
    if z >= 8 {
      BitAbove(b.c4, 16, m5, z - 8);
    }
    if z >= 24 {
      BitAbove(b.c5, 32, m6, z - 24);
    }
    if z >= 56 {
      BitAbove(b.c6, 1, 0, z - 56);
    }
    if z > 56 {
      ZeroBits(z - 57);
    }
  }

  lemma SparseBit(b: SevenBits, z: nat)
    ensures BitAt(Sparse(b), z) <==>
      (z == 0 && b.c0) || (z == 1 && b.c1) || (z == 3 && b.c2) || (z == 7 && b.c3)
      || (z == 15 && b.c4) || (z == 31 && b.c5) || (z == 63 && b.c6)
  {
    hide BitAt, Sparse, Above, Upper;
    SparseIs(b);
    var m2 := Above(b.c2, 4, Upper(b));
    BitAbove(b.c0, 1, Above(b.c1, 2, m2), z);
    if z >= 1 {
      BitAbove(b.c1, 2, m2, z - 1);
    }
    if z >= 3 {
      BitAbove(b.c2, 4, Upper(b), z - 3);
    }
    if z >= 7 {
      UpperBit(b, z - 7);
    }
  }

  lemma ZeroBits(z: nat)
    ensures !BitAt(0, z)
  {
    hide Shl, Shr, Pow2;
    ShlIsTimes(0, z);
    assert Pow2(z) > 0;
    ShrOfSum(0, 0, z);
  }

  lemma GapShifts(m: nat)
    ensures Shl(m, 1) == 2 * m && Shl(m, 2) == 4 * m && Shl(m, 4) == 16 * m && Shl(m, 8) == 256 * m
    ensures Shl(m, 16) == 0x1_0000 * m && Shl(m, 32) == 0x1_0000_0000 * m
  {
    hide Shl, Pow2;
    GapPowers();
    ShlIsTimes(m, 1);
    ShlIsTimes(m, 2);
    ShlIsTimes(m, 4);
    ShlIsTimes(m, 8);
    ShlIsTimes(m, 16);
    ShlIsTimes(m, 32);
  }

  lemma GapPowers()
    ensures Pow2(1) == 2 && Pow2(2) == 4 && Pow2(4) == 16 && Pow2(8) == 256
    ensures Pow2(16) == 0x1_0000 && Pow2(32) == 0x1_0000_0000
  {
    Pow2Values();
    Pow2Add(8, 8);
    Shl8(256);
  }

  // ----- the permutation -----

  /** Rounds 0 to `n - 1` of section 3.3. */
  function Rounds(w: nat, n: nat, s: seq<seq<bit>>): (r: seq<seq<bit>>)
    requires Shaped(w, s)
    ensures Shaped(w, r)
  {
    if n == 0 then s else Round(w, Rounds(w, n - 1, s), RoundConstant(w, n - 1))
  }

  /** `Keccak-f` of section 3.4: 24 rounds on 1600 bits, 22 rounds on 800 bits. */
  function RoundCount(w: nat): nat {
    if w == 64 then 24 else 22
  }

  /** A table entry, read as a lane. */
  function TableLane(w: nat, i: nat): (r: seq<bit>)
    ensures |r| == w
  {
    Binary(w, if w == 64 then Constant64(i) else Constant32(i))
  }

  lemma RcSeven(i: nat)
    requires i < 24
    ensures Seven(7 * i) == SevenBits(Rc(7 * i), Rc(7 * i + 1), Rc(7 * i + 2), Rc(7 * i + 3), Rc(7 * i + 4),
                                      Rc(7 * i + 5), Rc(7 * i + 6))
  {
    hide Lfsr;
  }

  lemma TableLaneIs(w: nat, i: nat)
    requires (w == 64 || w == 32) && i < 24
    ensures TableLane(w, i) == RoundConstant(w, i)
  {
    hide Constant64, Constant32, Sparse, Lfsr, Rc, BitAt;
    TablesAreTheStandards(i);
    RcSeven(i);
    forall z | 0 <= z < w ensures TableLane(w, i)[z] == RoundConstant(w, i)[z] {
      SparseBit(if w == 64 then Seven(7 * i) else Seven(7 * i).(c6 := false), z);
    }
  }

  /** `keccakf1600` and `keccakf800`. */
  method KeccakF(w: nat, state: array<seq<bit>>)
    requires (w == 64 || w == 32) && state.Length == 25 && Shaped(w, state[..])
    modifies state
    ensures state[..] == Rounds(w, RoundCount(w), old(state[..]))
  {
    hide Round, RoundConstant, TableLane;
    var a := state[..];
    var n := 0;
    while n < RoundCount(w)
      invariant 0 <= n <= RoundCount(w) && n % 2 == 0 && Shaped(w, a) && a == Rounds(w, n, old(state[..]))
      invariant state[..] == old(state[..])
    {
      TableLaneIs(w, n);
      TableLaneIs(w, n + 1);
      if w == 64 {
        var e := UnrolledRound1600(a, TableLane(w, n));
        a := UnrolledRound1600(e, TableLane(w, n + 1));
      } else {
        var e := UnrolledRound800(a, TableLane(w, n));
        a := UnrolledRound800(e, TableLane(w, n + 1));
      }
      n := n + 2;
    }
    for i := 0 to 25
      invariant state[..i] == a[..i]
    {
      state[i] := a[i];
    }
    assert state[..] == a;
  }

  /** The permutation the sponge is instantiated with. */
  function Permutation1600(s: StateBits): StateBits {
    Flattened(Rounds(64, 24, Lanes(s)))
  }

  function Flattened(s: seq<seq<bit>>): StateBits
    requires Shaped(64, s)
  {
    seq(1600, i requires 0 <= i < 1600 => s[i / 64][i % 64])
  }

  lemma LanesOfFlat(s: seq<Lane>)
    requires |s| == 25
    ensures |Flat(s)| == 1600 && Lanes(Flat(s)) == s
  {
    forall k | 0 <= k < 25 ensures Lanes(Flat(s))[k] == s[k] {
      LaneOfFlat(s, k);
    }
  }

  lemma LaneOfFlat(s: seq<Lane>, k: nat)
    requires |s| == 25 && k < 25
    ensures Flat(s)[64 * k..64 * k + 64] == s[k]
  {
    var lane := Flat(s)[64 * k..64 * k + 64];
    assert |lane| == |s[k]|;
    forall z | 0 <= z < 64 ensures lane[z] == s[k][z] {
      assert lane[z] == Flat(s)[64 * k + z];
      assert (64 * k + z) / 64 == k && (64 * k + z) % 64 == z;
    }
  }

  /** On the words of a state it does what `keccakf1600` does to them. */
  lemma PermutationOnLanes(s: seq<Lane>)
    requires |s| == 25
    ensures |Flat(s)| == 1600 && Permutation1600(Flat(s)) == Flattened(Rounds(64, 24, s))
  {
    hide Rounds, Flat, Lanes;
    LanesOfFlat(s);
  }
}
