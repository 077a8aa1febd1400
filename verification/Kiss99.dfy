/** The KISS99 generator, as the class of libethash/kiss99.hpp and as the function on a reference of
    libprogpow/ProgPow.cpp. */
module Kiss99 {
  import opened Words

  datatype Kiss = Kiss(z: word, w: word, jsr: word, jcong: word)

  // The word operations of the generator: multiply with carry, xorshift and linear congruence.
  function Carry(m: word, x: word): word { Plus(Times(m, And(x, 0xffff)), Shr(x, 16)) }

  function XorLeft(x: word, n: word): word
    requires n <= 32
  {
    Xor(x, Shl(x, n))
  }

  function XorRight(x: word, n: word): word
    requires n <= 32
  {
    Xor(x, Shr(x, n))
  }

  function Congruence(x: word): word { Plus(Times(69069, x), 1234567) }

  function Pair(z: word, w: word): word { Plus(Shl(z, 16), w) }

  function Combine(mwc: word, jcong: word, jsr: word): word { Plus(Xor(mwc, jcong), jsr) }

  // The state after one draw, and the number drawn in reaching a state.
  function Step(k: Kiss): Kiss {
    Kiss(
      Carry(36969, k.z),
      Carry(18000, k.w),
      XorLeft(XorRight(XorLeft(k.jsr, 17), 13), 5),
      Congruence(k.jcong))
  }

  function Out(k: Kiss): word {
    Combine(Pair(k.z, k.w), k.jcong, k.jsr)
  }

  class Generator {
    var z: word
    var w: word
    var jsr: word
    var jcong: word

    constructor (k: Kiss)
      ensures State() == k
    {
      z, w, jsr, jcong := k.z, k.w, k.jsr, k.jcong;
    }

    function State(): Kiss
      reads this
    {
      Kiss(z, w, jsr, jcong)
    }

    method Next() returns (x: word)
      modifies this
      ensures State() == Step(old(State())) && x == Out(State())
    {
      hide Carry, XorLeft, XorRight, Congruence, Pair, Combine;
      z := Carry(36969, z);
      w := Carry(18000, w);
      jcong := Congruence(jcong);
      jsr := XorLeft(jsr, 17);
      jsr := XorRight(jsr, 13);
      jsr := XorLeft(jsr, 5);
      x := Combine(Pair(z, w), jcong, jsr);
    }
  }

  // ProgPow::kiss99; the struct is passed by reference.
  method Draw(st: Kiss) returns (next: Kiss, x: word)
    ensures next == Step(st) && x == Out(next)
  {
    hide Carry, XorLeft, XorRight, Congruence, Pair, Combine;
    var z := Carry(36969, st.z);
    var w := Carry(18000, st.w);
    var mwc := Pair(z, w);
    var jsr := XorLeft(st.jsr, 17);
    jsr := XorRight(jsr, 13);
    jsr := XorLeft(jsr, 5);
    var jcong := Congruence(st.jcong);
    next := Kiss(z, w, jsr, jcong);
    x := Combine(mwc, jcong, jsr);
  }
}
