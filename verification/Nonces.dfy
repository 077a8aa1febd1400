/** The nonce space: the pool's extranonce, the segments that the farm gives its miners, and the part of a
    nonce that is submitted (EthStratumClient.cpp, Farm.cpp, CommonData.h). */
module Nonces {
  import opened Arith
  import opened FastMod

  const NONCE_DIGITS := 16

  function Pow16(n: nat): (p: nat)
    ensures p > 0
  {
    if n == 0 then 1 else 16 * Pow16(n - 1)
  }

  lemma {:induction false} Pow16Sum(m: nat, n: nat)
    ensures Pow16(m + n) == Pow16(m) * Pow16(n)
  {
    if m > 0 {
      Pow16Sum(m - 1, n);
      assert m - 1 + n == m + n - 1;
      assert 16 * Pow16(m - 1) * Pow16(n) == 16 * (Pow16(m - 1) * Pow16(n));
    }
  }

  lemma AllNonces()
    ensures Pow16(NONCE_DIGITS) == TWO64
  {
    assert Pow16(8) == TWO32;
    Pow16Sum(8, 8);
  }

  predicate IsHexDigit(c: char) { '0' <= c <= '9' || 'a' <= c <= 'f' || 'A' <= c <= 'F' }

  function DigitValue(c: char): (v: nat)
    requires IsHexDigit(c)
    ensures v < 16
  {
    if '0' <= c <= '9' then c as int - '0' as int
    else if 'a' <= c <= 'f' then c as int - 'a' as int + 10
    else c as int - 'A' as int + 10
  }

  function Digit(v: nat): (c: char)
    requires v < 16
    ensures IsHexDigit(c) && DigitValue(c) == v
  {
    if v < 10 then (v + '0' as int) as char else (v - 10 + 'a' as int) as char
  }

  const LOWER := "0123456789abcdef"
  const UPPER := "0123456789ABCDEF"

  /** The digits and what they stand for. */
  lemma DigitsStandFor(c: char, v: nat)
    requires v < 16
    ensures IsHexDigit(c) <==> c in LOWER || c in UPPER
    ensures IsHexDigit(LOWER[v]) && DigitValue(LOWER[v]) == v && IsHexDigit(UPPER[v]) && DigitValue(UPPER[v]) == v
    ensures Digit(v) == LOWER[v]
  {
    if IsHexDigit(c) {
      var d := DigitValue(c);
      assert c == LOWER[d] || c == UPPER[d];
    }
  }

  predicate IsHex(s: string) { forall i :: 0 <= i < |s| ==> IsHexDigit(s[i]) }

  function HexValue(s: string): nat
    requires IsHex(s)
  {
    if |s| == 0 then 0 else 16 * HexValue(s[..|s| - 1]) + DigitValue(s[|s| - 1])
  }

  // The last digits of a number in hexadecimal, as many as asked for.
  function HexDigits(n: nat, digits: nat): (s: string)
    ensures |s| == digits && IsHex(s)
  {
    if digits == 0 then "" else HexDigits(n / 16, digits - 1) + [Digit(n % 16)]
  }

  // toHex of a 64-bit number: lower case, with leading zeros.
  function ToHex(n: nat): string { HexDigits(n, NONCE_DIGITS) }

  // A string with its letters in lower case.
  function Lower(s: string): (t: string)
    requires IsHex(s)
    ensures |t| == |s|
  {
    seq(|s|, i requires 0 <= i < |s| => Digit(DigitValue(s[i])))
  }

  /** Printing a number that fits undoes reading it, up to the case of the letters. */
  lemma {:induction false} PrintOfRead(s: string)
    requires IsHex(s)
    ensures HexDigits(HexValue(s), |s|) == Lower(s) && HexValue(s) < Pow16(|s|)
  {
    if |s| > 0 {
      var init := s[..|s| - 1];
      PrintOfRead(init);
      DivUnique(HexValue(s), 16, HexValue(init), DigitValue(s[|s| - 1]));
      assert Lower(s) == Lower(init) + [Digit(DigitValue(s[|s| - 1]))];
    }
  }

  lemma {:induction false} ReadOfPrint(n: nat, digits: nat)
    requires n < Pow16(digits)
    ensures HexValue(HexDigits(n, digits)) == n
  {
    if digits > 0 {
      ReadOfPrint(n / 16, digits - 1);
      assert HexDigits(n, digits)[..digits - 1] == HexDigits(n / 16, digits - 1);
    }
  }

  /** The leading digits of a number are the digits of its quotient. */
  lemma {:induction false} LeadingDigits(n: nat, lead: nat, tail: nat)
    ensures HexDigits(n, lead + tail) == HexDigits(Quot(n, Pow16(tail)), lead) + HexDigits(n, tail)
  {
    if tail == 0 {
      QuotUnique(n, 1, n);
    } else {
      LeadingDigits(n / 16, lead, tail - 1);
      QuotOfQuot(n, Pow16(tail - 1));
      hide Quot, Pow16;
      assert HexDigits(n, lead + tail) == HexDigits(n / 16, lead + (tail - 1)) + [Digit(n % 16)];
      var a, b := HexDigits(Quot(n / 16, Pow16(tail - 1)), lead), HexDigits(n / 16, tail - 1);
      assert a + (b + [Digit(n % 16)]) == a + b + [Digit(n % 16)];
    }
  }

  lemma QuotOfQuot(n: nat, p: nat)
    requires p > 0
    ensures Quot(n / 16, p) == Quot(n, 16 * p)
  {
    var q, r := n / 16, n % 16;
    var a := Quot(q, p);
    assert 16 * p * a == 16 * (p * a);
    QuotUnique(n, 16 * p, a);
  }

  function Zeros(n: nat): (s: string)
    ensures |s| == n && IsHex(s)
  {
    if n == 0 then "" else Zeros(n - 1) + "0"
  }

  // std::string::resize(16, '0').
  function Resized(s: string): (t: string)
    ensures |t| == NONCE_DIGITS
  {
    if |s| >= NONCE_DIGITS then s[..NONCE_DIGITS] else s + Zeros(NONCE_DIGITS - |s|)
  }

  lemma ResizedIsHex(s: string)
    requires IsHex(s)
    ensures IsHex(Resized(s))
  {
  }

  lemma {:induction false} ZerosShift(s: string, n: nat)
    requires IsHex(s)
    ensures IsHex(s + Zeros(n)) && HexValue(s + Zeros(n)) == HexValue(s) * Pow16(n)
  {
    hide HexValue, IsHex;
    if n == 0 {
      assert s + Zeros(n) == s;
    } else {
      ZerosShift(s, n - 1);
      AppendZero(s + Zeros(n - 1));
      assert s + Zeros(n) == s + Zeros(n - 1) + "0";
      SixteenFold(HexValue(s), Pow16(n - 1));
    }
  }

  lemma SixteenFold(v: nat, p: nat)
    ensures v * (16 * p) == 16 * (v * p)
  {
  }

  lemma AppendZero(s: string)
    requires IsHex(s)
    ensures IsHex(s + "0") && HexValue(s + "0") == 16 * HexValue(s)
  {
    assert (s + "0")[..|s|] == s;
  }

  // What std::stoul reads in base 16: white space and a sign are skipped, then "0x" before a digit, and the digits
  // end where another character follows. Without a digit it throws.
  datatype Parsed = Value(n: nat) | InvalidArgument

  predicate IsSpace(c: char) { c == ' ' || 9 <= c as int <= 13 }

  function Trimmed(s: string): string { if |s| > 0 && IsSpace(s[0]) then Trimmed(s[1..]) else s }

  function Unsigned(s: string): string { if |s| > 0 && (s[0] == '+' || s[0] == '-') then s[1..] else s }

  function Unprefixed(s: string): string {
    if |s| > 2 && s[0] == '0' && (s[1] == 'x' || s[1] == 'X') && IsHexDigit(s[2]) then s[2..] else s
  }

  function Run(s: string): (r: string)
    ensures IsHex(r) && |r| <= |s|
  {
    if |s| > 0 && IsHexDigit(s[0]) then [s[0]] + Run(s[1..]) else ""
  }

  function Stoul(s: string): Parsed {
    var t := Trimmed(s);
    var digits := Run(Unprefixed(Unsigned(t)));
    if digits == "" then InvalidArgument
    else if t[0] == '-' then Value((TWO64 - HexValue(digits)) % TWO64)
    else Value(HexValue(digits))
  }

  lemma {:induction false} RunOfHex(s: string)
    requires IsHex(s)
    ensures Run(s) == s
  {
    if |s| > 0 {
      RunOfHex(s[1..]);
    }
  }

  lemma StoulOfHex(s: string)
    requires IsHex(s) && |s| > 0
    ensures Stoul(s) == Value(HexValue(s))
  {
    hide HexValue;
    RunOfHex(s);
    assert IsHexDigit(s[0]) && (|s| > 1 ==> IsHexDigit(s[1]));
    assert Trimmed(s) == s && Unsigned(s) == s && Unprefixed(s) == s;
  }

  // The white space of the C locale.
  predicate White(c: char) { c == ' ' || c == '\t' || c == '\n' || c as int == 11 || c as int == 12 || c == '\r' }

  predicate IsSign(c: char) { c == '+' || c == '-' }

  // The parts of a numeral without white space and sign: a prefix, digits, and what does not belong to it.
  ghost predicate Numeral(prefix: string, digits: string, rest: string) {
    && (prefix == "" || prefix == "0x" || prefix == "0X") && IsHex(digits)
    && (|rest| > 0 ==> !IsHexDigit(rest[0]))
    && (digits == "" ==> prefix == "")
    && !(prefix == "" && digits == "0" && |rest| > 1 && (rest[0] == 'x' || rest[0] == 'X') && IsHexDigit(rest[1]))
  }

  // What may follow the white space: a sign, or no further white space or sign.
  ghost predicate Signed(sign: string, body: string) {
    sign == "+" || sign == "-" || (sign == "" && (|body| > 0 ==> !White(body[0]) && !IsSign(body[0])))
  }

  ghost predicate Blank(white: string) { forall i :: 0 <= i < |white| ==> White(white[i]) }

  lemma {:induction false} TrimmedOf(white: string, t: string)
    requires Blank(white) && (|t| > 0 ==> !White(t[0]))
    ensures Trimmed(white + t) == t
  {
    if |white| == 0 {
      assert white + t == t;
    } else {
      assert (white + t)[1..] == white[1..] + t;
      TrimmedOf(white[1..], t);
    }
  }

  lemma {:induction false} RunOf(digits: string, rest: string)
    requires IsHex(digits) && (|rest| > 0 ==> !IsHexDigit(rest[0]))
    ensures Run(digits + rest) == digits
  {
    if |digits| == 0 {
      assert digits + rest == rest;
    } else {
      assert (digits + rest)[1..] == digits[1..] + rest;
      RunOf(digits[1..], rest);
    }
  }

  lemma UnprefixedOf(prefix: string, digits: string, rest: string)
    requires Numeral(prefix, digits, rest)
    ensures Unprefixed(prefix + digits + rest) == digits + rest
  {
    var s := prefix + digits + rest;
    if prefix != "" {
      assert s[2..] == digits + rest && s[2] == digits[0];
    } else {
      assert s == digits + rest;
      if |digits| > 1 {
        assert s[1] == digits[1];
      } else if |digits| == 1 && |s| > 2 {
        assert s[1] == rest[0] && s[2] == rest[1];
      } else if |digits| == 0 && |s| > 0 {
        assert s[0] == rest[0];
      }
    }
  }

  lemma UnsignedOf(sign: string, body: string)
    requires Signed(sign, body)
    ensures Unsigned(sign + body) == body && (|sign + body| > 0 ==> !White((sign + body)[0]))
    ensures |body| > 0 ==> ((sign + body)[0] == '-' <==> sign == "-")
  {
    var s := sign + body;
    if sign == "" {
      assert s == body;
    } else {
      assert s[1..] == body;
    }
  }

  /** stoul reads the number that the digits spell, taken from 2^64 after a minus; without digits it throws. */
  lemma StoulReads(white: string, sign: string, prefix: string, digits: string, rest: string)
    requires Blank(white) && Signed(sign, prefix + digits + rest) && Numeral(prefix, digits, rest)
    ensures Stoul(white + (sign + (prefix + digits + rest))) ==
      if digits == "" then InvalidArgument
      else if sign == "-" then Value((TWO64 - HexValue(digits)) % TWO64)
      else Value(HexValue(digits))
  {
    hide HexValue, Trimmed, Unsigned, Unprefixed, Run, Numeral, Signed, Blank;
    UnsignedOf(sign, prefix + digits + rest);
    TrimmedOf(white, sign + (prefix + digits + rest));
    UnprefixedOf(prefix, digits, rest);
    RunOfNumeral(prefix, digits, rest);
  }

  lemma RunOfNumeral(prefix: string, digits: string, rest: string)
    requires Numeral(prefix, digits, rest)
    ensures Run(digits + rest) == digits
  {
    RunOf(digits, rest);
  }

  lemma DigitsOf(s: string) returns (digits: string, rest: string)
    ensures s == digits + rest && IsHex(digits) && (|rest| > 0 ==> !IsHexDigit(rest[0]))
    ensures digits == "" <==> |s| == 0 || !IsHexDigit(s[0])
  {
    digits := Run(s);
    RunSplits(s);
    rest := s[|digits|..];
  }

  lemma PrefixedNumeral(s: string) returns (prefix: string, digits: string, rest: string)
    requires |s| > 2 && s[0] == '0' && (s[1] == 'x' || s[1] == 'X') && IsHexDigit(s[2])
    ensures s == prefix + digits + rest && Numeral(prefix, digits, rest)
  {
    hide Run;
    prefix := s[..2];
    assert prefix == "0x" || prefix == "0X";
    assert s == prefix + s[2..];
    digits, rest := DigitsOf(s[2..]);
  }

  lemma PlainNumeral(s: string) returns (prefix: string, digits: string, rest: string)
    requires !(|s| > 2 && s[0] == '0' && (s[1] == 'x' || s[1] == 'X') && IsHexDigit(s[2]))
    ensures s == prefix + digits + rest && Numeral(prefix, digits, rest)
  {
    hide Run;
    prefix := "";
    digits, rest := DigitsOf(s);
    if digits == "0" && |rest| > 1 {
      assert s[0] == '0' && s[1] == rest[0] && s[2] == rest[1];
    }
    assert s == prefix + digits + rest;
  }

  lemma SignOf(s: string) returns (sign: string, body: string)
    requires |s| > 0 ==> !White(s[0])
    ensures s == sign + body && Signed(sign, body)
  {
    hide White;
    if |s| > 0 && IsSign(s[0]) {
      sign, body := s[..1], s[1..];
      assert sign == "+" || sign == "-";
    } else {
      sign, body := "", s;
    }
  }

  /** Every string is spelled in one of these ways, so that stoul is known on all. */
  lemma {:induction false} Spelling(s: string) returns (white: string, sign: string, prefix: string, digits: string, rest: string)
    ensures s == white + (sign + (prefix + digits + rest))
    ensures Blank(white) && Signed(sign, prefix + digits + rest) && Numeral(prefix, digits, rest)
    decreases |s|
  {
    hide Numeral, Signed, White;
    if |s| > 0 && White(s[0]) {
      white, sign, prefix, digits, rest := Spelling(s[1..]);
      white := [s[0]] + white;
    } else {
      white := "";
      var body;
      sign, body := SignOf(s);
      if |body| > 2 && body[0] == '0' && (body[1] == 'x' || body[1] == 'X') && IsHexDigit(body[2]) {
        prefix, digits, rest := PrefixedNumeral(body);
      } else {
        prefix, digits, rest := PlainNumeral(body);
      }
    }
  }

  lemma {:induction false} RunSplits(s: string)
    ensures s[..|Run(s)|] == Run(s) && (|s| > |Run(s)| ==> !IsHexDigit(s[|Run(s)|]))
    ensures |s| > 0 && IsHexDigit(s[0]) ==> Run(s) != ""
  {
    if |s| > 0 && IsHexDigit(s[0]) {
      RunSplits(s[1..]);
    }
  }

  lemma {:induction false} TrimmedShrinks(s: string)
    ensures |Trimmed(s)| <= |s|
  {
    if |s| > 0 {
      TrimmedShrinks(s[1..]);
    }
  }

  // A number of at most 16 digits fits, and it fails to be read exactly if there is no digit where it should begin.
  lemma StoulFits(s: string)
    requires |s| <= NONCE_DIGITS
    ensures Stoul(s).InvalidArgument? <==> var u := Unsigned(Trimmed(s)); |u| == 0 || !IsHexDigit(u[0])
    ensures Stoul(s).Value? ==> Stoul(s).n < TWO64
  {
    hide HexValue, Pow16, HexDigits;
    TrimmedShrinks(s);
    var digits := Run(Unprefixed(Unsigned(Trimmed(s))));
    PrintOfRead(digits);
    Pow16Sum(|digits|, NONCE_DIGITS - |digits|);
    AllNonces();
    MulLe(Pow16(|digits|), 1, Pow16(NONCE_DIGITS - |digits|));
    assert HexValue(digits) < TWO64;
    Complement(HexValue(digits));
  }

  lemma Complement(v: nat)
    requires v < TWO64
    ensures 0 <= (TWO64 - v) % TWO64 < TWO64
  {
  }

  /** processExtranonce, for every string: hexadecimal digits become the leading digits of a 64-bit nonce, and those
      past the 16th are dropped, but not from the size; the call throws exactly if no digit follows the spaces and
      the sign. */
  method ProcessExtranonce(enonce: string) returns (size: nat, extraNonce: Parsed)
    ensures size == |enonce| % TWO32
    ensures IsHex(enonce) && |enonce| <= NONCE_DIGITS ==>
      extraNonce == Value(HexValue(enonce) * Pow16(NONCE_DIGITS - |enonce|))
    ensures IsHex(enonce) && |enonce| > NONCE_DIGITS ==> extraNonce == Value(HexValue(enonce[..NONCE_DIGITS]))
    ensures extraNonce.InvalidArgument? <==>
      var u := Unsigned(Trimmed(Resized(enonce))); |u| == 0 || !IsHexDigit(u[0])
    ensures extraNonce.Value? ==> extraNonce.n < TWO64
  {
    hide Pow16, HexValue, HexDigits, Stoul, Trimmed, Unsigned;
    size := |enonce| % TWO32;
    var resized := Resized(enonce);
    extraNonce := Stoul(resized);
    StoulFits(resized);
    if IsHex(enonce) {
      ResizedIsHex(enonce);
      StoulOfHex(resized);
      if |enonce| <= NONCE_DIGITS {
        ZerosShift(enonce, NONCE_DIGITS - |enonce|);
        assert resized == enonce + Zeros(NONCE_DIGITS - |enonce|);
      }
    }
  }

  // The width of a miner's segment: the floor of the base-two logarithm of the miner's equal share.
  function SegmentWidth(size: nat, miners: nat): (w: nat)
    requires size <= NONCE_DIGITS && 0 < miners <= Pow16(NONCE_DIGITS - size)
    ensures miners * Pow2(w) <= Pow16(NONCE_DIGITS - size) < 2 * (miners * Pow2(w))
  {
    var share := Quot(Pow16(NONCE_DIGITS - size), miners);
    ShareHolds(Pow16(NONCE_DIGITS - size), miners, share);
    Log2(share)
  }

  lemma ShareHolds(total: nat, miners: nat, share: nat)
    requires 0 < miners <= total && miners * share <= total < miners * share + miners
    ensures share > 0
    ensures miners * Pow2(Log2(share)) <= total < 2 * (miners * Pow2(Log2(share)))
  {
    hide Pow2, Log2;
    Halved(total, miners, share, Pow2(Log2(share)));
  }

  lemma Halved(total: nat, miners: nat, share: nat, p: nat)
    requires miners * share <= total < miners * share + miners && p <= share < 2 * p
    ensures miners * p <= total < 2 * (miners * p)
  {
    MulLe(miners, p, share);
    MulLe(miners, share + 1, 2 * p);
    assert miners * (2 * p) == 2 * (miners * p);
    assert miners * (share + 1) == miners * share + miners;
  }

  // The a-th nonce of miner i.
  function NonceAt(start: nat, width: nat, i: nat, a: nat): nat { (start + i * Pow2(width) + a) % TWO64 }

  /** Farm::setWork: the first nonce of every miner, from the extranonce if there is one and from the
      random start otherwise. */
  method SetWork(exSize: nat, startNonce: nat, scrambler: nat, oldWidth: nat, miners: array<nat>)
    returns (width: nat, start: nat)
    requires 0 < exSize <= NONCE_DIGITS ==> 0 < miners.Length <= Pow16(NONCE_DIGITS - exSize)
    requires exSize <= NONCE_DIGITS
    modifies miners
    ensures if exSize > 0 then start == startNonce && width == SegmentWidth(exSize, miners.Length)
            else start == scrambler && width == oldWidth
    ensures forall i :: 0 <= i < miners.Length ==> miners[i] == NonceAt(start, width, i, 0)
  {
    hide Pow16, Pow2;
    if exSize > 0 {
      start := startNonce;
      width := SegmentWidth(exSize, miners.Length);
    } else {
      start := scrambler;
      width := oldWidth;
    }
    for i := 0 to miners.Length
      invariant forall k :: 0 <= k < i ==> miners[k] == NonceAt(start, width, k, 0)
    {
      miners[i] := (start + i * Pow2(width)) % TWO64;
    }
  }

  /** No nonce belongs to two miners' segments, wherever the first one starts, when the segments fit the
      nonce space. */
  lemma SegmentsDisjoint(start: nat, width: nat, miners: nat, i: nat, a: nat, j: nat, b: nat)
    requires miners * Pow2(width) <= TWO64 && i < j < miners && a < Pow2(width) && b < Pow2(width)
    ensures NonceAt(start, width, i, a) != NonceAt(start, width, j, b)
  {
    hide Pow2;
    var p := Pow2(width);
    Apart(p, miners, i, a, j, b);
    var x, y := start + i * p + a, start + j * p + b;
    ModDiffer(y, x, TWO64);
  }

  lemma Apart(p: nat, miners: nat, i: nat, a: nat, j: nat, b: nat)
    requires i < j < miners && a < p && b < p
    ensures 0 <= i * p + a < j * p + b < miners * p
  {
    Inside(p, j, i, a);
    Inside(p, miners, j, b);
  }

  lemma Inside(p: nat, n: nat, i: nat, a: nat)
    requires i < n && a < p
    ensures 0 <= i * p + a < n * p
  {
    MulLe(p, i + 1, n);
    MulLe(p, 0, i);
    assert (i + 1) * p == i * p + p;
  }

  // The nonces that an extranonce leaves open, the first of them, and the a-th nonce of miner i.
  function Residual(enonce: string): (p: nat)
    requires |enonce| <= NONCE_DIGITS
    ensures p > 0
  {
    Pow16(NONCE_DIGITS - |enonce|)
  }

  function First(enonce: string): nat
    requires IsHex(enonce) && |enonce| <= NONCE_DIGITS
  {
    HexValue(enonce) * Residual(enonce)
  }

  function MinerNonce(enonce: string, miners: nat, i: nat, a: nat): nat
    requires IsHex(enonce) && |enonce| <= NONCE_DIGITS && 0 < miners <= Residual(enonce)
  {
    NonceAt(First(enonce), SegmentWidth(|enonce|, miners), i, a)
  }

  /** With an extranonce every nonce of every segment lies in the residual range that the pool left to
      the farm, without wrapping. */
  lemma SegmentsInside(enonce: string, miners: nat, i: nat, a: nat)
    requires IsHex(enonce) && |enonce| <= NONCE_DIGITS && 0 < miners <= Residual(enonce) && i < miners
    requires a < Pow2(SegmentWidth(|enonce|, miners))
    ensures First(enonce) <= MinerNonce(enonce, miners, i, a) < First(enonce) + Residual(enonce) <= TWO64
    ensures Quot(MinerNonce(enonce, miners, i, a), Residual(enonce)) == HexValue(enonce)
  {
    hide Pow2, Pow16, HexValue, Quot;
    var p, e, q := Residual(enonce), HexValue(enonce), Pow2(SegmentWidth(|enonce|, miners));
    PrintOfRead(enonce);
    AllNonces();
    Pow16Sum(|enonce|, NONCE_DIGITS - |enonce|);
    Inside(q, miners, i, a);
    InRange(e, p, i * q + a, Pow16(|enonce|));
    assert MinerNonce(enonce, miners, i, a) == (e * p + (i * q + a)) % TWO64;
  }

  lemma InRange(e: nat, p: nat, offset: nat, n: nat)
    requires e < n && n * p == TWO64 && offset < p
    ensures e * p + p <= TWO64
    ensures (e * p + offset) % TWO64 == e * p + offset && Quot(e * p + offset, p) == e
  {
    MulLe(p, e + 1, n);
    assert (e + 1) * p == e * p + p;
    Small(e * p + offset, TWO64);
    assert p * e == e * p;
    QuotUnique(e * p + offset, p, e);
  }

  datatype Submission = Suffix(digits: string) | OutOfRange

  // std::string::substr, which throws when the position is past the end.
  function Substr(s: string, pos: nat): Submission { if pos <= |s| then Suffix(s[pos..]) else OutOfRange }

  // The size of the extranonce as a work package holds it, in 16 bits.
  function PackageSize(enonce: string): nat { |enonce| % 0x1_0000 }

  function SubmittedPart(nonce: nat, enonce: string): Submission { Substr(ToHex(nonce), PackageSize(enonce)) }

  /** For every nonce and every extranonce the submission fails exactly if the size that the package holds is above
      16, so for every extranonce of 17 to 65535 digits. */
  lemma SubmissionFails(enonce: string, nonce: nat)
    ensures SubmittedPart(nonce, enonce) == OutOfRange <==> |enonce| % 0x1_0000 > NONCE_DIGITS
    ensures NONCE_DIGITS < |enonce| < 0x1_0000 ==> SubmittedPart(nonce, enonce) == OutOfRange
  {
    hide HexDigits;
  }

  /** What does not come back: only lower-case hexadecimal digits can, whatever the nonce. */
  lemma OnlyLowerComesBack(enonce: string, nonce: nat)
    requires SubmittedPart(nonce, enonce).Suffix?
    requires enonce + SubmittedPart(nonce, enonce).digits == ToHex(nonce)
    ensures |enonce| <= NONCE_DIGITS && IsHex(enonce) && enonce == Lower(enonce)
  {
    var digits := ToHex(nonce);
    assert enonce == digits[..|enonce|];
    forall i | 0 <= i < |enonce| ensures IsHexDigit(enonce[i]) && enonce[i] == Digit(DigitValue(enonce[i])) {
      PrintsLower(nonce, NONCE_DIGITS, i);
    }
  }

  lemma {:induction false} PrintsLower(n: nat, digits: nat, i: nat)
    requires i < digits
    ensures HexDigits(n, digits)[i] == Digit(DigitValue(HexDigits(n, digits)[i]))
  {
    if i < digits - 1 {
      PrintsLower(n / 16, digits - 1, i);
    }
  }

  /** The round trip: the extranonce followed by what is submitted is the nonce in hexadecimal, for every
      extranonce of at most 16 digits, every number of miners that fits and every nonce of every segment.
      The letters of the extranonce come back in lower case, so that the two strings are equal exactly
      when it had no capital letters. */
  lemma Submitted(enonce: string, miners: nat, i: nat, a: nat)
    requires IsHex(enonce) && |enonce| <= NONCE_DIGITS && 0 < miners <= Residual(enonce) && i < miners
    requires a < Pow2(SegmentWidth(|enonce|, miners))
    ensures var nonce := MinerNonce(enonce, miners, i, a);
      var part := SubmittedPart(nonce, enonce);
      && part.Suffix? && Lower(enonce) + part.digits == ToHex(nonce)
      && (enonce + part.digits == ToHex(nonce) <==> enonce == Lower(enonce))
  {
    hide Pow2, Pow16, HexDigits, HexValue, MinerNonce, Quot;
    SegmentsInside(enonce, miners, i, a);
    Prefixed(enonce, MinerNonce(enonce, miners, i, a));
  }

  lemma Prefixed(enonce: string, nonce: nat)
    requires IsHex(enonce) && |enonce| <= NONCE_DIGITS && Quot(nonce, Residual(enonce)) == HexValue(enonce)
    ensures Lower(enonce) + ToHex(nonce)[|enonce|..] == ToHex(nonce)
    ensures enonce + ToHex(nonce)[|enonce|..] == ToHex(nonce) <==> enonce == Lower(enonce)
  {
    hide Pow16, HexDigits, HexValue, Quot;
    var size, digits := |enonce|, ToHex(nonce);
    LeadingDigits(nonce, size, NONCE_DIGITS - size);
    PrintOfRead(enonce);
    assert digits == Lower(enonce) + digits[size..];
    if enonce + digits[size..] == digits {
      assert enonce == digits[..size];
    }
  }
}
