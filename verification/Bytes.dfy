/** Byte strings as big-endian numbers: the conversions of libdevcore/CommonData.h and the orders of
    libdevcore/FixedHash.h and libethash/ethash-internal.hpp. */
module Bytes {
  import opened Arith

  type byte = x: int | 0 <= x < 256

  function Pow256(n: nat): (p: nat)
    ensures p > 0
  {
    if n == 0 then 1 else 256 * Pow256(n - 1)
  }

  // The number that bytes denote, most significant first.
  function Number(b: seq<byte>): nat {
    if |b| == 0 then 0 else 256 * Number(b[..|b| - 1]) + b[|b| - 1]
  }

  // n shifted right by k bytes.
  function ShiftRight(n: nat, k: nat): int { n / Pow256(k) }

  lemma {:induction false} NumberBound(b: seq<byte>)
    ensures Number(b) < Pow256(|b|)
  {
    if |b| > 0 {
      NumberBound(b[..|b| - 1]);
    }
  }

  lemma {:induction false} NumberOfConcat(a: seq<byte>, b: seq<byte>)
    ensures Number(a + b) == Number(a) * Pow256(|b|) + Number(b)
  {
    if |b| == 0 {
      assert a + b == a;
    } else {
      var init := b[..|b| - 1];
      NumberOfConcat(a, init);
      assert (a + b)[..|a + b| - 1] == a + init;
      Shifted(Number(a), Pow256(|b| - 1));
    }
  }

  lemma Shifted(n: nat, p: nat)
    ensures n * (256 * p) == 256 * (n * p)
  {
  }

  lemma NumberOfNone()
    ensures Number([]) == 0
  {
  }

  lemma NumberOfCons(x: byte, rest: seq<byte>)
    ensures Number([x] + rest) == x * Pow256(|rest|) + Number(rest)
  {
    hide Number, Pow256;
    NumberOfOne(x);
    NumberOfConcat([x], rest);
  }

  lemma NumberOfOne(x: byte)
    ensures Number([x]) == x
  {
    assert [x][..0] == [];
  }

  lemma NumberSplit(b: seq<byte>, j: nat)
    requires j <= |b|
    ensures Number(b) == Number(b[..j]) * Pow256(|b| - j) + Number(b[j..]) && Number(b[j..]) < Pow256(|b| - j)
    ensures Number(b) / Pow256(|b| - j) == Number(b[..j])
  {
    hide Number, Pow256;
    assert b[..j] + b[j..] == b;
    NumberOfConcat(b[..j], b[j..]);
    NumberBound(b[j..]);
    DivUnique(Number(b), Pow256(|b| - j), Number(b[..j]), Number(b[j..]));
  }

  // A strictly smaller prefix decides, whatever follows.
  lemma PrefixDecides(a: seq<byte>, b: seq<byte>, j: nat)
    requires |a| == |b| && j <= |a| && Number(a[..j]) < Number(b[..j])
    ensures Number(a) < Number(b)
  {
    hide Number, Pow256;
    NumberSplit(a, j);
    NumberSplit(b, j);
    LeadingDecides(Number(a[..j]), Number(b[..j]), Pow256(|a| - j), Number(a[j..]), Number(b[j..]));
  }

  lemma LeadingDecides(x: nat, y: nat, p: nat, r: nat, s: nat)
    requires x < y && r < p
    ensures x * p + r < y * p + s
  {
    MulLe(p, x + 1, y);
  }

  lemma {:induction false} NumberInjective(a: seq<byte>, b: seq<byte>)
    requires |a| == |b| && Number(a) == Number(b)
    ensures a == b
  {
    if |a| > 0 {
      NumberInjective(a[..|a| - 1], b[..|b| - 1]);
      assert a == a[..|a| - 1] + [a[|a| - 1]] && b == b[..|b| - 1] + [b[|b| - 1]];
    }
  }

  /** FixedHash's operator<, for every width. */
  method Less(a: seq<byte>, b: seq<byte>) returns (r: bool)
    requires |a| == |b|
    ensures r <==> Number(a) < Number(b)
  {
    for i := 0 to |a|
      invariant a[..i] == b[..i]
    {
      assert a[..i + 1][..i] == a[..i] && b[..i + 1][..i] == b[..i];
      if a[i] < b[i] {
        PrefixDecides(a, b, i + 1);
        return true;
      }
      if a[i] > b[i] {
        PrefixDecides(b, a, i + 1);
        return false;
      }
    }
    assert a[..|a|] == a && b[..|b|] == b;
    r := false;
  }

  /** is_less_or_equal: four big-endian 64-bit words, compared from the first. */
  method IsLessOrEqual(a: seq<byte>, b: seq<byte>) returns (r: bool)
    requires |a| == |b| == 32
    ensures r <==> Number(a) <= Number(b)
  {
    hide Number, Pow256;
    for i := 0 to 4
      invariant Number(a[..8 * i]) == Number(b[..8 * i])
    {
      var x, y := Number(a[8 * i..8 * i + 8]), Number(b[8 * i..8 * i + 8]);
      NextWord(a, i);
      NextWord(b, i);
      if x > y {
        PrefixDecides(b, a, 8 * i + 8);
        return false;
      }
      if x < y {
        PrefixDecides(a, b, 8 * i + 8);
        return true;
      }
    }
    assert a[..32] == a && b[..32] == b;
    r := true;
  }

  lemma NextWord(a: seq<byte>, i: nat)
    requires |a| == 32 && i < 4
    ensures Number(a[..8 * i + 8]) == Number(a[..8 * i]) * Pow256(8) + Number(a[8 * i..8 * i + 8])
  {
    hide Number, Pow256;
    assert a[..8 * i + 8] == a[..8 * i] + a[8 * i..8 * i + 8];
    NumberOfConcat(a[..8 * i], a[8 * i..8 * i + 8]);
  }

  /** fromBigEndian into an unsigned type of width bytes, which drops what does not fit. */
  method FromBigEndian(b: seq<byte>, width: nat) returns (r: nat)
    ensures r == Number(b) % Pow256(width)
  {
    var m := Pow256(width);
    r := 0;
    DivUnique(0, m, 0, 0);
    for i := 0 to |b|
      invariant r == Number(b[..i]) % m
    {
      assert b[..i + 1][..i] == b[..i];
      ModStep(Number(b[..i]), b[i], m);
      r := (r * 256 + b[i]) % m;
    }
    assert b[..|b|] == b;
  }

  lemma ModStep(n: nat, x: nat, m: nat)
    requires m > 0
    ensures (n % m * 256 + x) % m == (n * 256 + x) % m
  {
    var q, r := n / m, n % m;
    var s := r * 256 + x;
    assert n * 256 + x == m * (q * 256 + s / m) + s % m by {
      assert n == m * q + r && s == m * (s / m) + s % m;
      assert n * 256 == m * (q * 256) + r * 256;
    }
    DivUnique(n * 256 + x, m, q * 256 + s / m, s % m);
  }

  /** toBigEndian: the low bytes of the value, as many as there is room for. */
  method ToBigEndian(val: nat, out: array<byte>)
    modifies out
    ensures Number(out[..]) == val % Pow256(out.Length)
  {
    hide Number;
    var v: nat := val;
    var i := out.Length;
    NumberOfNone();
    assert out[i..] == [];
    DivUnique(val, 1, val, 0);
    while i != 0
      invariant 0 <= i <= out.Length
      invariant val == v * Pow256(out.Length - i) + Number(out[i..])
    {
      ghost var rest := out[i..];
      out[i - 1] := v % 256;
      assert out[i - 1..] == [v % 256] + rest;
      NumberOfCons(v % 256, rest);
      SplitLow(v, Pow256(out.Length - i), Number(rest));
      v := v / 256;
      i := i - 1;
    }
    assert out[0..] == out[..];
    NumberBound(out[..]);
    DivUnique(val, Pow256(out.Length), v, Number(out[..]));
  }

  lemma SplitLow(v: nat, p: nat, low: nat)
    ensures v * p + low == v / 256 * (256 * p) + (v % 256 * p + low)
  {
    var q, r := v / 256, v % 256;
    assert v * p == (q * 256 + r) * p;
    assert (q * 256 + r) * p == q * (256 * p) + r * p;
  }

  /** FixedHash's big-endian increment: the carry stops at the first byte that does not wrap to zero. */
  method Increment(a: array<byte>)
    modifies a
    ensures Number(a[..]) == (Number(old(a[..])) + 1) % Pow256(a.Length)
  {
    hide Number;
    ghost var was := a[..];
    var i := a.Length;
    NumberOfNone();
    var carry := true;
    assert was[i..] == [] && a[i..] == [];
    while i > 0 && carry
      invariant 0 <= i <= a.Length
      invariant a[..i] == was[..i]
      invariant if carry then Number(was[i..]) + 1 == Pow256(a.Length - i) && Number(a[i..]) == 0
                else Number(a[i..]) == Number(was[i..]) + 1
    {
      ghost var rest := a[i..];
      i := i - 1;
      var x: byte := if a[i] == 255 then 0 else a[i] + 1;
      assert was[i..] == [was[i]] + was[i + 1..];
      NumberOfCons(was[i], was[i + 1..]);
      a[i] := x;
      assert a[i..] == [x] + rest;
      NumberOfCons(x, rest);
      carry := x == 0;
    }
    NumberBound(a[..]);
    NumberSplit(was, i);
    NumberSplit(a[..], i);
    if carry {
      assert a[..][i..] == a[..] && was[i..] == was;
      DivUnique(Number(was) + 1, Pow256(a.Length), 1, 0);
    } else {
      DivUnique(Number(was) + 1, Pow256(a.Length), 0, Number(a[..]));
    }
  }

  /** The top 64 bits of a 256-bit hash against those of the boundary: the test that a kernel makes
      passes for every hash that meets the boundary, and otherwise only for hashes that share the
      boundary's top 64 bits. */
  lemma TopDecides(h: seq<byte>, boundary: seq<byte>)
    requires |h| == |boundary| == 32
    ensures ShiftRight(Number(boundary), 24) == Number(boundary[..8])
    ensures Number(h) <= Number(boundary) ==> Number(h[..8]) <= ShiftRight(Number(boundary), 24)
    ensures Number(h[..8]) < ShiftRight(Number(boundary), 24) ==> Number(h) < Number(boundary)
  {
    hide Number, Pow256;
    NumberSplit(boundary, 8);
    if Number(boundary[..8]) < Number(h[..8]) {
      PrefixDecides(boundary, h, 8);
    } else if Number(h[..8]) < Number(boundary[..8]) {
      PrefixDecides(h, boundary, 8);
    }
  }

  ghost predicate PassesAbove(h: seq<byte>, boundary: seq<byte>) {
    && |h| == |boundary| == 32 && Number(h[..8]) <= ShiftRight(Number(boundary), 24)
    && Number(h) > Number(boundary)
  }

  /** The converse fails: a hash one above its boundary passes the test on the top 64 bits. */
  lemma TopIsNotEnough()
    ensures exists h: seq<byte>, boundary: seq<byte> :: PassesAbove(h, boundary)
  {
    hide Pow256;
    var boundary: seq<byte> := seq(32, _ => 0);
    var h: seq<byte> := boundary[31 := 1];
    assert h[..31] == boundary[..31] && h[..8] == boundary[..8];
    TopDecides(boundary, boundary);
    assert PassesAbove(h, boundary);
  }
}
