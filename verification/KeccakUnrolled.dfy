/** The unrolled permutation of libethash/keccakf1600.c and libethash/keccakf800.c.

    The two C files hold the same statements: the second is a translation of the first in which the
    lanes are 32 bits wide and every rotation count is reduced modulo 32. Within a file, the
    statements that take Axx to Exx and those that take Exx to Axx are the same, so they are one
    method here, called twice. */
module KeccakUnrolled {
  import opened KeccakSpec

  lemma Effects<W>(o: LaneOps<W>, a: seq<W>, ba: W, be: W, bi: W, bo: W, bu: W)
    requires |a| == LANES && o.Valid()
    requires ba == Column(o, a, 0) && be == Column(o, a, 1) && bi == Column(o, a, 2)
    requires bo == Column(o, a, 3) && bu == Column(o, a, 4)
    ensures ThetaEffect(o, a, 0) == o.Xor(bu, o.Rotl(be, 1))
    ensures ThetaEffect(o, a, 1) == o.Xor(ba, o.Rotl(bi, 1))
    ensures ThetaEffect(o, a, 2) == o.Xor(be, o.Rotl(bo, 1))
    ensures ThetaEffect(o, a, 3) == o.Xor(bi, o.Rotl(bu, 1))
    ensures ThetaEffect(o, a, 4) == o.Xor(bo, o.Rotl(ba, 1))
  {
    hide Column, LaneOps.Rotl;
  }

  lemma RowB<W>(o: LaneOps<W>, a: seq<W>, e: seq<W>, rc: W, ba: W, be: W, bi: W, bo: W, bu: W)
    requires |a| == LANES && o.Valid() && e == Round(o, a, rc)
    requires ba == o.Xor(a[0], ThetaEffect(o, a, 0))
    requires be == o.Rotl(o.Xor(a[6], ThetaEffect(o, a, 1)), 44)
    requires bi == o.Rotl(o.Xor(a[12], ThetaEffect(o, a, 2)), 43)
    requires bo == o.Rotl(o.Xor(a[18], ThetaEffect(o, a, 3)), 21)
    requires bu == o.Rotl(o.Xor(a[24], ThetaEffect(o, a, 4)), 14)
    ensures e[0] == o.Xor(o.Xor(ba, o.AndNot(be, bi)), rc)
    ensures e[1] == o.Xor(be, o.AndNot(bi, bo))
    ensures e[2] == o.Xor(bi, o.AndNot(bo, bu))
    ensures e[3] == o.Xor(bo, o.AndNot(bu, ba))
    ensures e[4] == o.Xor(bu, o.AndNot(ba, be))
  {
    hide Round, ThetaEffect, Moved, LaneOps.Rotl;
    MovedZero(o, a); MovedTo(o, a, 1, 6, 1, 44); MovedTo(o, a, 2, 12, 2, 43); MovedTo(o, a, 3, 18, 3, 21); MovedTo(o, a, 4, 24, 4, 14);
    RoundLane(o, a, rc, 0); RoundLane(o, a, rc, 1); RoundLane(o, a, rc, 2); RoundLane(o, a, rc, 3); RoundLane(o, a, rc, 4);
  }

  lemma RowG<W>(o: LaneOps<W>, a: seq<W>, e: seq<W>, rc: W, ba: W, be: W, bi: W, bo: W, bu: W)
    requires |a| == LANES && o.Valid() && e == Round(o, a, rc)
    requires ba == o.Rotl(o.Xor(a[3], ThetaEffect(o, a, 3)), 28)
    requires be == o.Rotl(o.Xor(a[9], ThetaEffect(o, a, 4)), 20)
    requires bi == o.Rotl(o.Xor(a[10], ThetaEffect(o, a, 0)), 3)
    requires bo == o.Rotl(o.Xor(a[16], ThetaEffect(o, a, 1)), 45)
    requires bu == o.Rotl(o.Xor(a[22], ThetaEffect(o, a, 2)), 61)
    ensures e[5] == o.Xor(ba, o.AndNot(be, bi))
    ensures e[6] == o.Xor(be, o.AndNot(bi, bo))
    ensures e[7] == o.Xor(bi, o.AndNot(bo, bu))
    ensures e[8] == o.Xor(bo, o.AndNot(bu, ba))
    ensures e[9] == o.Xor(bu, o.AndNot(ba, be))
  {
    hide Round, ThetaEffect, Moved, LaneOps.Rotl;
    MovedTo(o, a, 5, 3, 3, 28); MovedTo(o, a, 6, 9, 4, 20); MovedTo(o, a, 7, 10, 0, 3); MovedTo(o, a, 8, 16, 1, 45); MovedTo(o, a, 9, 22, 2, 61);
    RoundLane(o, a, rc, 5); RoundLane(o, a, rc, 6); RoundLane(o, a, rc, 7); RoundLane(o, a, rc, 8); RoundLane(o, a, rc, 9);
  }

  lemma RowK<W>(o: LaneOps<W>, a: seq<W>, e: seq<W>, rc: W, ba: W, be: W, bi: W, bo: W, bu: W)
    requires |a| == LANES && o.Valid() && e == Round(o, a, rc)
    requires ba == o.Rotl(o.Xor(a[1], ThetaEffect(o, a, 1)), 1)
    requires be == o.Rotl(o.Xor(a[7], ThetaEffect(o, a, 2)), 6)
    requires bi == o.Rotl(o.Xor(a[13], ThetaEffect(o, a, 3)), 25)
    requires bo == o.Rotl(o.Xor(a[19], ThetaEffect(o, a, 4)), 8)
    requires bu == o.Rotl(o.Xor(a[20], ThetaEffect(o, a, 0)), 18)
    ensures e[10] == o.Xor(ba, o.AndNot(be, bi))
    ensures e[11] == o.Xor(be, o.AndNot(bi, bo))
    ensures e[12] == o.Xor(bi, o.AndNot(bo, bu))
    ensures e[13] == o.Xor(bo, o.AndNot(bu, ba))
    ensures e[14] == o.Xor(bu, o.AndNot(ba, be))
  {
    hide Round, ThetaEffect, Moved, LaneOps.Rotl;
    MovedTo(o, a, 10, 1, 1, 1); MovedTo(o, a, 11, 7, 2, 6); MovedTo(o, a, 12, 13, 3, 25); MovedTo(o, a, 13, 19, 4, 8); MovedTo(o, a, 14, 20, 0, 18);
    RoundLane(o, a, rc, 10); RoundLane(o, a, rc, 11); RoundLane(o, a, rc, 12); RoundLane(o, a, rc, 13); RoundLane(o, a, rc, 14);
  }

  lemma RowM<W>(o: LaneOps<W>, a: seq<W>, e: seq<W>, rc: W, ba: W, be: W, bi: W, bo: W, bu: W)
    requires |a| == LANES && o.Valid() && e == Round(o, a, rc)
    requires ba == o.Rotl(o.Xor(a[4], ThetaEffect(o, a, 4)), 27)
    requires be == o.Rotl(o.Xor(a[5], ThetaEffect(o, a, 0)), 36)
    requires bi == o.Rotl(o.Xor(a[11], ThetaEffect(o, a, 1)), 10)
    requires bo == o.Rotl(o.Xor(a[17], ThetaEffect(o, a, 2)), 15)
    requires bu == o.Rotl(o.Xor(a[23], ThetaEffect(o, a, 3)), 56)
    ensures e[15] == o.Xor(ba, o.AndNot(be, bi))
    ensures e[16] == o.Xor(be, o.AndNot(bi, bo))
    ensures e[17] == o.Xor(bi, o.AndNot(bo, bu))
    ensures e[18] == o.Xor(bo, o.AndNot(bu, ba))
    ensures e[19] == o.Xor(bu, o.AndNot(ba, be))
  {
    hide Round, ThetaEffect, Moved, LaneOps.Rotl;
    MovedTo(o, a, 15, 4, 4, 27); MovedTo(o, a, 16, 5, 0, 36); MovedTo(o, a, 17, 11, 1, 10); MovedTo(o, a, 18, 17, 2, 15); MovedTo(o, a, 19, 23, 3, 56);
    RoundLane(o, a, rc, 15); RoundLane(o, a, rc, 16); RoundLane(o, a, rc, 17); RoundLane(o, a, rc, 18); RoundLane(o, a, rc, 19);
  }

  lemma RowS<W>(o: LaneOps<W>, a: seq<W>, e: seq<W>, rc: W, ba: W, be: W, bi: W, bo: W, bu: W)
    requires |a| == LANES && o.Valid() && e == Round(o, a, rc)
    requires ba == o.Rotl(o.Xor(a[2], ThetaEffect(o, a, 2)), 62)
    requires be == o.Rotl(o.Xor(a[8], ThetaEffect(o, a, 3)), 55)
    requires bi == o.Rotl(o.Xor(a[14], ThetaEffect(o, a, 4)), 39)
    requires bo == o.Rotl(o.Xor(a[15], ThetaEffect(o, a, 0)), 41)
    requires bu == o.Rotl(o.Xor(a[21], ThetaEffect(o, a, 1)), 2)
    ensures e[20] == o.Xor(ba, o.AndNot(be, bi))
    ensures e[21] == o.Xor(be, o.AndNot(bi, bo))
    ensures e[22] == o.Xor(bi, o.AndNot(bo, bu))
    ensures e[23] == o.Xor(bo, o.AndNot(bu, ba))
    ensures e[24] == o.Xor(bu, o.AndNot(ba, be))
  {
    hide Round, ThetaEffect, Moved, LaneOps.Rotl;
    MovedTo(o, a, 20, 2, 2, 62); MovedTo(o, a, 21, 8, 3, 55); MovedTo(o, a, 22, 14, 4, 39); MovedTo(o, a, 23, 15, 0, 41); MovedTo(o, a, 24, 21, 1, 2);
    RoundLane(o, a, rc, 20); RoundLane(o, a, rc, 21); RoundLane(o, a, rc, 22); RoundLane(o, a, rc, 23); RoundLane(o, a, rc, 24);
  }

  /** One round on 25 locals. The ghost arguments are the state the locals hold, and its next state. */
  method UnrolledRound<W>(
      o: LaneOps<W>, rc: W,
      Aba: W, Abe: W, Abi: W, Abo: W, Abu: W,
      Aga: W, Age: W, Agi: W, Ago: W, Agu: W,
      Aka: W, Ake: W, Aki: W, Ako: W, Aku: W,
      Ama: W, Ame: W, Ami: W, Amo: W, Amu: W,
      Asa: W, Ase: W, Asi: W, Aso: W, Asu: W,
      ghost a: seq<W>, ghost e: seq<W>)
    returns (
      Eba: W, Ebe: W, Ebi: W, Ebo: W, Ebu: W,
      Ega: W, Ege: W, Egi: W, Ego: W, Egu: W,
      Eka: W, Eke: W, Eki: W, Eko: W, Eku: W,
      Ema: W, Eme: W, Emi: W, Emo: W, Emu: W,
      Esa: W, Ese: W, Esi: W, Eso: W, Esu: W)
    requires o.Valid() && |a| == LANES && e == Round(o, a, rc)
    requires Aba == a[0] && Abe == a[1] && Abi == a[2] && Abo == a[3] && Abu == a[4]
    requires Aga == a[5] && Age == a[6] && Agi == a[7] && Ago == a[8] && Agu == a[9]
    requires Aka == a[10] && Ake == a[11] && Aki == a[12] && Ako == a[13] && Aku == a[14]
    requires Ama == a[15] && Ame == a[16] && Ami == a[17] && Amo == a[18] && Amu == a[19]
    requires Asa == a[20] && Ase == a[21] && Asi == a[22] && Aso == a[23] && Asu == a[24]
    ensures Eba == e[0] && Ebe == e[1] && Ebi == e[2] && Ebo == e[3] && Ebu == e[4]
    ensures Ega == e[5] && Ege == e[6] && Egi == e[7] && Ego == e[8] && Egu == e[9]
    ensures Eka == e[10] && Eke == e[11] && Eki == e[12] && Eko == e[13] && Eku == e[14]
    ensures Ema == e[15] && Eme == e[16] && Emi == e[17] && Emo == e[18] && Emu == e[19]
    ensures Esa == e[20] && Ese == e[21] && Esi == e[22] && Eso == e[23] && Esu == e[24]
  {
    hide Round, ThetaEffect, LaneOps.Xor, LaneOps.AndNot, LaneOps.Rotl;
    var Ba := o.Xor(o.Xor(o.Xor(o.Xor(Aba, Aga), Aka), Ama), Asa);
    var Be := o.Xor(o.Xor(o.Xor(o.Xor(Abe, Age), Ake), Ame), Ase);
    var Bi := o.Xor(o.Xor(o.Xor(o.Xor(Abi, Agi), Aki), Ami), Asi);
    var Bo := o.Xor(o.Xor(o.Xor(o.Xor(Abo, Ago), Ako), Amo), Aso);
    var Bu := o.Xor(o.Xor(o.Xor(o.Xor(Abu, Agu), Aku), Amu), Asu);
    Effects(o, a, Ba, Be, Bi, Bo, Bu);
    var Da := o.Xor(Bu, o.Rotl(Be, 1));
    var De := o.Xor(Ba, o.Rotl(Bi, 1));
    var Di := o.Xor(Be, o.Rotl(Bo, 1));
    var Do := o.Xor(Bi, o.Rotl(Bu, 1));
    var Du := o.Xor(Bo, o.Rotl(Ba, 1));
    Ba := o.Xor(Aba, Da);
    Be := o.Rotl(o.Xor(Age, De), 44);
    Bi := o.Rotl(o.Xor(Aki, Di), 43);
    Bo := o.Rotl(o.Xor(Amo, Do), 21);
    Bu := o.Rotl(o.Xor(Asu, Du), 14);
    RowB(o, a, e, rc, Ba, Be, Bi, Bo, Bu);
    Eba := o.Xor(o.Xor(Ba, o.AndNot(Be, Bi)), rc);
    Ebe := o.Xor(Be, o.AndNot(Bi, Bo));
    Ebi := o.Xor(Bi, o.AndNot(Bo, Bu));
    Ebo := o.Xor(Bo, o.AndNot(Bu, Ba));
    Ebu := o.Xor(Bu, o.AndNot(Ba, Be));
    Ba := o.Rotl(o.Xor(Abo, Do), 28);
    Be := o.Rotl(o.Xor(Agu, Du), 20);
    Bi := o.Rotl(o.Xor(Aka, Da), 3);
    Bo := o.Rotl(o.Xor(Ame, De), 45);
    Bu := o.Rotl(o.Xor(Asi, Di), 61);
    RowG(o, a, e, rc, Ba, Be, Bi, Bo, Bu);
    Ega := o.Xor(Ba, o.AndNot(Be, Bi));
    Ege := o.Xor(Be, o.AndNot(Bi, Bo));
    Egi := o.Xor(Bi, o.AndNot(Bo, Bu));
    Ego := o.Xor(Bo, o.AndNot(Bu, Ba));
    Egu := o.Xor(Bu, o.AndNot(Ba, Be));
    Ba := o.Rotl(o.Xor(Abe, De), 1);
    Be := o.Rotl(o.Xor(Agi, Di), 6);
    Bi := o.Rotl(o.Xor(Ako, Do), 25);
    Bo := o.Rotl(o.Xor(Amu, Du), 8);
    Bu := o.Rotl(o.Xor(Asa, Da), 18);
    RowK(o, a, e, rc, Ba, Be, Bi, Bo, Bu);
    Eka := o.Xor(Ba, o.AndNot(Be, Bi));
    Eke := o.Xor(Be, o.AndNot(Bi, Bo));
    Eki := o.Xor(Bi, o.AndNot(Bo, Bu));
    Eko := o.Xor(Bo, o.AndNot(Bu, Ba));
    Eku := o.Xor(Bu, o.AndNot(Ba, Be));
    Ba := o.Rotl(o.Xor(Abu, Du), 27);
    Be := o.Rotl(o.Xor(Aga, Da), 36);
    Bi := o.Rotl(o.Xor(Ake, De), 10);
    Bo := o.Rotl(o.Xor(Ami, Di), 15);
    Bu := o.Rotl(o.Xor(Aso, Do), 56);
    RowM(o, a, e, rc, Ba, Be, Bi, Bo, Bu);
    Ema := o.Xor(Ba, o.AndNot(Be, Bi));
    Eme := o.Xor(Be, o.AndNot(Bi, Bo));
    Emi := o.Xor(Bi, o.AndNot(Bo, Bu));
    Emo := o.Xor(Bo, o.AndNot(Bu, Ba));
    Emu := o.Xor(Bu, o.AndNot(Ba, Be));
    Ba := o.Rotl(o.Xor(Abi, Di), 62);
    Be := o.Rotl(o.Xor(Ago, Do), 55);
    Bi := o.Rotl(o.Xor(Aku, Du), 39);
    Bo := o.Rotl(o.Xor(Ama, Da), 41);
    Bu := o.Rotl(o.Xor(Ase, De), 2);
    RowS(o, a, e, rc, Ba, Be, Bi, Bo, Bu);
    Esa := o.Xor(Ba, o.AndNot(Be, Bi));
    Ese := o.Xor(Be, o.AndNot(Bi, Bo));
    Esi := o.Xor(Bi, o.AndNot(Bo, Bu));
    Eso := o.Xor(Bo, o.AndNot(Bu, Ba));
    Esu := o.Xor(Bu, o.AndNot(Ba, Be));
  }

  method Permute<W>(o: LaneOps<W>, state: array<W>, rcs: seq<W>)
    requires state.Length == LANES && o.Valid() && |rcs| % 2 == 0
    modifies state
    ensures state[..] == Rounds(o, old(state[..]), rcs, |rcs|)
  {
    hide Round;
    ghost var a := state[..];
    var Aba, Abe, Abi, Abo, Abu := state[0], state[1], state[2], state[3], state[4];
    var Aga, Age, Agi, Ago, Agu := state[5], state[6], state[7], state[8], state[9];
    var Aka, Ake, Aki, Ako, Aku := state[10], state[11], state[12], state[13], state[14];
    var Ama, Ame, Ami, Amo, Amu := state[15], state[16], state[17], state[18], state[19];
    var Asa, Ase, Asi, Aso, Asu := state[20], state[21], state[22], state[23], state[24];
    var round := 0;
    while round < |rcs|
      invariant 0 <= round <= |rcs| && round % 2 == 0
      invariant |a| == LANES && a == Rounds(o, old(state[..]), rcs, round)
      invariant Aba == a[0] && Abe == a[1] && Abi == a[2] && Abo == a[3] && Abu == a[4]
      invariant Aga == a[5] && Age == a[6] && Agi == a[7] && Ago == a[8] && Agu == a[9]
      invariant Aka == a[10] && Ake == a[11] && Aki == a[12] && Ako == a[13] && Aku == a[14]
      invariant Ama == a[15] && Ame == a[16] && Ami == a[17] && Amo == a[18] && Amu == a[19]
      invariant Asa == a[20] && Ase == a[21] && Asi == a[22] && Aso == a[23] && Asu == a[24]
    {
      ghost var e := Round(o, a, rcs[round]);
      var Eba, Ebe, Ebi, Ebo, Ebu,
        Ega, Ege, Egi, Ego, Egu,
        Eka, Eke, Eki, Eko, Eku,
        Ema, Eme, Emi, Emo, Emu,
        Esa, Ese, Esi, Eso, Esu :=
        UnrolledRound(o, rcs[round],
        Aba, Abe, Abi, Abo, Abu,
        Aga, Age, Agi, Ago, Agu,
        Aka, Ake, Aki, Ako, Aku,
        Ama, Ame, Ami, Amo, Amu,
        Asa, Ase, Asi, Aso, Asu, a, e);
      a := Round(o, e, rcs[round + 1]);
      Aba, Abe, Abi, Abo, Abu,
        Aga, Age, Agi, Ago, Agu,
        Aka, Ake, Aki, Ako, Aku,
        Ama, Ame, Ami, Amo, Amu,
        Asa, Ase, Asi, Aso, Asu :=
        UnrolledRound(o, rcs[round + 1],
        Eba, Ebe, Ebi, Ebo, Ebu,
        Ega, Ege, Egi, Ego, Egu,
        Eka, Eke, Eki, Eko, Eku,
        Ema, Eme, Emi, Emo, Emu,
        Esa, Ese, Esi, Eso, Esu, e, a);
      round := round + 2;
    }
    StoreRow(state, 0, Aba, Abe, Abi, Abo, Abu, a);
    StoreRow(state, 5, Aga, Age, Agi, Ago, Agu, a);
    StoreRow(state, 10, Aka, Ake, Aki, Ako, Aku, a);
    StoreRow(state, 15, Ama, Ame, Ami, Amo, Amu, a);
    StoreRow(state, 20, Asa, Ase, Asi, Aso, Asu, a);
  }

  method StoreRow<W>(state: array<W>, k: nat, ba: W, be: W, bi: W, bo: W, bu: W, ghost a: seq<W>)
    requires state.Length == LANES == |a| && k <= 20 && state[..k] == a[..k]
    requires ba == a[k] && be == a[k + 1] && bi == a[k + 2] && bo == a[k + 3] && bu == a[k + 4]
    modifies state
    ensures state[..k + 5] == a[..k + 5]
  {
    state[k], state[k + 1], state[k + 2], state[k + 3], state[k + 4] := ba, be, bi, bo, bu;
  }
}
