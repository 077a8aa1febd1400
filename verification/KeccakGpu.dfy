/** The in-place Keccak round of the GPU kernels: keccak_f800_round of the OpenCL kernel and
    keccak_f1600_round of the CUDA kernel are the same statements at two lane widths. */
module KeccakGpu {
  import opened KeccakSpec

  // keccakf_piln and keccakf_rotc.
  function Piln(i: nat): (p: nat)
    requires i < 24
    ensures 0 < p < LANES
  {
    match i
    case 0 => 10 case 1 => 7 case 2 => 11 case 3 => 17 case 4 => 18 case 5 => 3
    case 6 => 5 case 7 => 16 case 8 => 8 case 9 => 21 case 10 => 24 case 11 => 4
    case 12 => 15 case 13 => 23 case 14 => 19 case 15 => 13 case 16 => 12 case 17 => 2
    case 18 => 20 case 19 => 14 case 20 => 22 case 21 => 9 case 22 => 6 case _ => 1
  }

  function Rotc(i: nat): nat
    requires i < 24
  {
    match i
    case 0 => 1 case 1 => 3 case 2 => 6 case 3 => 10 case 4 => 15 case 5 => 21
    case 6 => 28 case 7 => 36 case 8 => 45 case 9 => 55 case 10 => 2 case 11 => 14
    case 12 => 27 case 13 => 41 case 14 => 56 case 15 => 8 case 16 => 25 case 17 => 43
    case 18 => 62 case 19 => 18 case 20 => 39 case 21 => 61 case 22 => 20 case _ => 44
  }

  /** The tables against the standard: the destinations are the stops of the walk, and the counts
      are the walk's offsets reduced modulo 64. */
  lemma TablesFollowTheWalk(i: nat)
    requires i < 24
    ensures Piln(i) == Walk(i + 1) && Rotc(i) == Offset(i) % 64
  {
    WalkTable(i + 1);
    RotcTable(i);
  }

  lemma RotcTable(i: nat)
    requires i < 24
    ensures Rotc(i) == Offset(i) % 64
  {
  }

  // The column parities.
  method Parities<W>(o: LaneOps<W>, st: array<W>, bc: array<W>)
    requires st.Length == LANES && bc.Length == 5 && st != bc
    modifies bc
    ensures forall x :: 0 <= x < 5 ==> bc[x] == Column(o, st[..], x)
  {
    for i := 0 to 5
      invariant forall k :: 0 <= k < i ==> bc[k] == Column(o, st[..], k)
    {
      bc[i] := o.Xor(o.Xor(o.Xor(o.Xor(st[i], st[i + 5]), st[i + 10]), st[i + 15]), st[i + 20]);
    }
  }

  function XoredColumn<W>(o: LaneOps<W>, a: seq<W>, i: nat, t: W): (r: seq<W>)
    requires |a| == LANES
    ensures |r| == LANES
  {
    seq(LANES, m requires 0 <= m < LANES => if m % 5 == i then o.Xor(a[m], t) else a[m])
  }

  method XorColumn<W>(o: LaneOps<W>, st: array<W>, i: nat, t: W)
    requires st.Length == LANES && i < 5
    modifies st
    ensures st[..] == XoredColumn(o, old(st[..]), i, t)
  {
    var j := 0;
    while j < LANES
      invariant 0 <= j <= LANES && j % 5 == 0
      invariant forall m :: 0 <= m < LANES ==>
        st[m] == if m % 5 == i && m < j then o.Xor(old(st[m]), t) else old(st[m])
    {
      st[j + i] := o.Xor(st[j + i], t);
      j := j + 5;
    }
  }

  function XoredColumns<W>(o: LaneOps<W>, a: seq<W>, d: seq<W>, n: nat): (r: seq<W>)
    requires |a| == LANES && n <= |d|
    ensures |r| == LANES
  {
    if n == 0 then a else XoredColumn(o, XoredColumns(o, a, d, n - 1), n - 1, d[n - 1])
  }

  lemma {:induction false} ColumnByColumn<W>(o: LaneOps<W>, a: seq<W>, d: seq<W>, n: nat, m: nat)
    requires |a| == LANES && |d| == 5 && n <= 5 && m < LANES
    ensures XoredColumns(o, a, d, n)[m] == if m % 5 < n then o.Xor(a[m], d[m % 5]) else a[m]
  {
    if n > 0 {
      ColumnByColumn(o, a, d, n - 1, m);
    }
  }

  method XorEffects<W>(o: LaneOps<W>, st: array<W>, bc: array<W>)
    requires st.Length == LANES && o.Valid() && bc.Length == 5 && st != bc
    requires forall x :: 0 <= x < 5 ==> bc[x] == Column(o, st[..], x)
    modifies st
    ensures st[..] == Theta(o, old(st[..]))
  {
    ghost var a := st[..];
    ghost var d := seq(5, x requires 0 <= x < 5 => ThetaEffect(o, a, x));
    for i := 0 to 5
      invariant st[..] == XoredColumns(o, a, d, i)
    {
      var t := o.Xor(bc[(i + 4) % 5], o.Rotl(bc[(i + 1) % 5], 1));
      XorColumn(o, st, i, t);
    }
    forall m | 0 <= m < LANES ensures XoredColumns(o, a, d, 5)[m] == Theta(o, a)[m] {
      ColumnByColumn(o, a, d, 5, m);
    }
  }

  method ThetaInPlace<W>(o: LaneOps<W>, st: array<W>, bc: array<W>)
    requires st.Length == LANES && o.Valid() && bc.Length == 5 && st != bc
    modifies st, bc
    ensures st[..] == Theta(o, old(st[..]))
  {
    Parities(o, st, bc);
    XorEffects(o, st, bc);
  }

  // The iteration of the rho and pi loop that stores lane k, and the lane it stores it from.
  function Arrival(k: nat): (i: nat)
    requires 0 < k < LANES
    ensures i < 24
  {
    match k
    case 1 => 23 case 2 => 17 case 3 => 5 case 4 => 11 case 5 => 6 case 6 => 22
    case 7 => 1 case 8 => 8 case 9 => 21 case 10 => 0 case 11 => 2 case 12 => 16
    case 13 => 15 case 14 => 19 case 15 => 12 case 16 => 7 case 17 => 3 case 18 => 4
    case 19 => 14 case 20 => 18 case 21 => 9 case 22 => 20 case 23 => 13 case _ => 10
  }

  function From(i: nat): (p: nat)
    requires i < 24
    ensures 0 < p < LANES
  {
    if i == 0 then 1 else Piln(i - 1)
  }

  lemma PilnArrives(i: nat)
    requires i < 24
    ensures Arrival(Piln(i)) == i
  {
  }

  lemma ArrivesAtPiln(k: nat)
    requires 0 < k < LANES
    ensures Piln(Arrival(k)) == k
  {
  }

  /** What the standard wants in the lane that iteration i stores. */
  lemma RhoPiWants<W>(o: LaneOps<W>, a: seq<W>, i: nat)
    requires |a| == LANES && o.Valid() && i < 24
    ensures Pi(Rho(o, a))[Piln(i)] == o.Rotl(a[From(i)], Rotc(i))
    ensures Pi(Rho(o, a))[0] == a[0]
  {
    hide Walk, Rho, Pi, Piln, Rotc, Offset;
    TablesFollowTheWalk(i);
    if i > 0 {
      TablesFollowTheWalk(i - 1);
    } else {
      WalkStart();
    }
    Mod64Mod32(Offset(i));
    RhoPiLane(o, a, i);
  }

  lemma WalkStart()
    ensures Walk(0) == 1
  {
  }

  // The state after n iterations of the loop on a.
  function Stored<W>(o: LaneOps<W>, a: seq<W>, n: nat): (r: seq<W>)
    requires |a| == LANES && o.Valid() && n <= 24
    ensures |r| == LANES
  {
    if n == 0 then a else
      Stored(o, a, n - 1)[Piln(n - 1) := o.Rotl(a[From(n - 1)], Rotc(n - 1))]
  }

  lemma {:induction false} StoredLane<W>(o: LaneOps<W>, a: seq<W>, n: nat, k: nat)
    requires |a| == LANES && o.Valid() && n <= 24 && k < LANES
    ensures Stored(o, a, n)[k] == if 0 < k && Arrival(k) < n then Pi(Rho(o, a))[k] else a[k]
  {
    if n > 0 {
      StoredLane(o, a, n - 1, k);
      RhoPiWants(o, a, n - 1);
      PilnArrives(n - 1);
      if k > 0 {
        ArrivesAtPiln(k);
      }
    }
  }

  method RhoPiInPlace<W>(o: LaneOps<W>, st: array<W>)
    requires st.Length == LANES && o.Valid()
    modifies st
    ensures st[..] == Pi(Rho(o, old(st[..])))
  {
    ghost var a := st[..];
    var t := st[1];
    for i := 0 to 24
      invariant i < 24 ==> t == a[From(i)]
      invariant st[..] == Stored(o, a, i)
    {
      var j := Piln(i);
      StoredLane(o, a, i, j);
      PilnArrives(i);
      var bc := st[j];
      st[j] := o.Rotl(t, Rotc(i));
      t := bc;
    }
    RhoPiWants(o, a, 0);
    forall k | 0 <= k < LANES ensures Stored(o, a, 24)[k] == Pi(Rho(o, a))[k] {
      StoredLane(o, a, 24, k);
    }
  }

  // The state a once n lanes of the row that starts at lane j have their new values.
  function RowUpTo<W>(o: LaneOps<W>, a: seq<W>, j: nat, n: nat): (r: seq<W>)
    requires |a| == LANES && j <= 20 && n <= 5
    ensures |r| == LANES
  {
    seq(LANES, m requires 0 <= m < LANES =>
      if j <= m < j + n then RowLane(o, a, j, m - j) else a[m])
  }

  method ChiRow<W>(o: LaneOps<W>, st: array<W>, bc: array<W>, j: nat)
    requires st.Length == LANES && bc.Length == 5 && st != bc && j <= 20
    modifies st, bc
    ensures st[..] == RowUpTo(o, old(st[..]), j, 5)
  {
    hide LaneOps.Xor, LaneOps.AndNot;
    ghost var a := st[..];
    for i := 0 to 5
      invariant bc[..i] == a[j..j + i]
      invariant st[..] == a
    {
      bc[i] := st[j + i];
    }
    for i := 0 to 5
      invariant bc[..] == a[j..j + 5]
      invariant st[..] == RowUpTo(o, a, j, i)
    {
      assert bc[(i + 1) % 5] == a[j..j + 5][(i + 1) % 5];
      assert bc[(i + 2) % 5] == a[j..j + 5][(i + 2) % 5];
      st[j + i] := o.Xor(st[j + i], o.AndNot(bc[(i + 1) % 5], bc[(i + 2) % 5]));
      assert st[j + i] == RowLane(o, a, j, i);
    }
  }

  // The state a once the rows before lane j have their new values.
  function RowsUpTo<W>(o: LaneOps<W>, a: seq<W>, j: nat): (r: seq<W>)
    requires |a| == LANES && j <= LANES
    ensures |r| == LANES
  {
    Chi(o, a)[..j] + a[j..]
  }

  lemma RowByRow<W>(o: LaneOps<W>, a: seq<W>, j: nat)
    requires |a| == LANES && j % 5 == 0 && j <= 20
    ensures RowUpTo(o, RowsUpTo(o, a, j), j, 5) == RowsUpTo(o, a, j + 5)
  {
    hide RowLane;
    var b := RowsUpTo(o, a, j);
    forall m | j <= m < j + 5
      ensures Chi(o, a)[m] == RowLane(o, a, j, m - j) == RowLane(o, b, j, m - j)
    {
      assert m % 5 == m - j;
      RowUntouched(o, a, b, j, m - j);
    }
  }

  // A row is computed from that row alone.
  lemma RowUntouched<W>(o: LaneOps<W>, a: seq<W>, b: seq<W>, row: nat, x: nat)
    requires |a| == LANES && |b| == LANES && row <= 20 && x < 5
    requires forall m :: row <= m < LANES ==> a[m] == b[m]
    ensures RowLane(o, a, row, x) == RowLane(o, b, row, x)
  {
  }

  method ChiInPlace<W>(o: LaneOps<W>, st: array<W>, bc: array<W>)
    requires st.Length == LANES && bc.Length == 5 && st != bc
    modifies st, bc
    ensures st[..] == Chi(o, old(st[..]))
  {
    hide RowUpTo, Chi;
    ghost var a := st[..];
    var j := 0;
    while j < LANES
      invariant 0 <= j <= LANES && j % 5 == 0
      invariant st[..] == RowsUpTo(o, a, j)
    {
      ChiRow(o, st, bc, j);
      RowByRow(o, a, j);
      j := j + 5;
    }
  }

  method RoundInPlace<W>(o: LaneOps<W>, st: array<W>, rc: W)
    requires st.Length == LANES && o.Valid()
    modifies st
    ensures st[..] == Round(o, old(st[..]), rc)
  {
    var bc := new W[5](_ => rc);
    ThetaInPlace(o, st, bc);
    RhoPiInPlace(o, st);
    ChiInPlace(o, st, bc);
    st[0] := o.Xor(st[0], rc);
  }
}
