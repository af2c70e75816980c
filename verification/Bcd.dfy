/** Binary-coded decimal arithmetic: the eight-bit adder and subtracter followed by DAA. */
module Bcd {
  import opened Bytes

  /** The accumulator and the four flags. */
  datatype Alu = Alu(a: byte, z: bool, n: bool, h: bool, c: bool)

  /** `add8`; `carry` tells ADC from ADD. */
  function Add(s: Alu, v: byte, carry: bool): Alu {
    var adjust := if carry && s.c then 1 else 0;
    var result := s.a + v + adjust;
    Alu(result % 0x100, result % 0x100 == 0, false, s.a % 16 + v % 16 + adjust >= 16, result >= 0x100)
  }

  /** `sub8`; `carry` tells SBC from SUB. */
  function Sub(s: Alu, v: byte, carry: bool): Alu {
    var adjust := if carry && s.c then 1 else 0;
    var result := (s.a - (v + adjust)) % 0x100;
    Alu(result, result == 0, true, s.a % 16 < v % 16 + adjust, s.a < v + adjust)
  }

  /** Subtracting what was added, carry and all, restores the accumulator, and borrows wherever the
      addition carried; both tell a zero result. */
  lemma SubUndoesAdd(s: Alu, v: byte, carry: bool)
    ensures var r := Add(s, v, carry);
            var u := Sub(r.(c := s.c), v, carry);
            && u.a == s.a && u.c == r.c && u.h == r.h
            && (r.z <==> r.a == 0) && (u.z <==> s.a == 0)
  {
    var adjust := if carry && s.c then 1 else 0;
    var result := Add(s, v, carry).a;
    Total(s.a + v + adjust, result);
    Restored(s.a, v + adjust, result);
    LowCarry(s.a, v, adjust, result);
  }

  lemma Total(sum: int, result: byte)
    requires 0 <= sum < 0x200 && result == sum % 0x100
    ensures result == if sum >= 0x100 then sum - 0x100 else sum
  {
  }

  lemma Restored(a: byte, v: int, result: byte)
    requires 0 <= v <= 0x100 && result == if a + v >= 0x100 then a + v - 0x100 else a + v
    ensures (result - v) % 0x100 == a && (result < v <==> a + v >= 0x100)
  {
  }

  lemma LowCarry(a: byte, v: byte, adjust: int, result: byte)
    requires 0 <= adjust <= 1
    requires result == a + v + adjust || result == a + v + adjust - 0x100
    ensures result % 16 < v % 16 + adjust <==> a % 16 + v % 16 + adjust >= 16
  {
    var low := a % 16 + v % 16 + adjust;
    assert result % 16 == if low >= 16 then low - 16 else low;
  }

  /** The correction `daa` adds to the accumulator, modulo 0x10000. */
  function Corrected(s: Alu): word {
    if s.n then
      var low := if s.h then (s.a - 0x06) % 0x100 else s.a;
      if s.c then (low - 0x60) % 0x1_0000 else low
    else
      var low := if s.h || s.a % 16 > 9 then s.a + 0x06 else s.a;
      if s.c || low > 0x9F then low + 0x60 else low
  }

  /** `daa`. */
  function Daa(s: Alu): Alu {
    var value := Corrected(s);
    Alu(value % 0x100, value % 0x100 == 0, s.n, false, s.c || value >= 0x100)
  }

  /** A byte of two decimal digits. */
  predicate IsBcd(b: byte) {
    b / 16 <= 9 && b % 16 <= 9
  }

  function Decimal(b: byte): int {
    b / 16 * 10 + b % 16
  }

  /** The byte with the given nibbles. */
  lemma Nibbles(high: int, low: int)
    requires 0 <= low < 16
    ensures (16 * high + low) / 16 == high && (16 * high + low) % 16 == low
  {
  }

  lemma DecimalByte(b: byte, high: int, low: int)
    requires 0 <= high <= 9 && 0 <= low <= 9 && b == 16 * high + low
    ensures IsBcd(b) && Decimal(b) == 10 * high + low
  {
    Nibbles(high, low);
  }

  /** The digits of an addition before correction. */
  lemma AddDigits(s: Alu, v: byte, carry: bool)
    ensures var r := Add(s, v, carry);
            var h1, h0 := s.a / 16 + v / 16, s.a % 16 + v % 16 + (if carry && s.c then 1 else 0);
            && !r.n && r.c == (16 * h1 + h0 >= 0x100) && r.h == (h0 >= 16)
            && r.a == 16 * h1 + h0 - (if r.c then 0x100 else 0)
  {
  }

  /** The correction of a sum, by its digits: `h1` and `h0` are the digit sums, `h0` with the carry in. */
  lemma CorrectedSum(s: Alu, h1: int, h0: int, carry0: int, carry1: int)
    requires 0 <= h1 <= 18 && 0 <= h0 <= 19 && !s.n
    requires carry0 == (if h0 > 9 then 1 else 0) && carry1 == (if h1 + carry0 > 9 then 1 else 0)
    requires s.c == (16 * h1 + h0 >= 0x100) && s.h == (h0 >= 16)
    requires s.a == 16 * h1 + h0 - (if s.c then 0x100 else 0)
    ensures Daa(s).a == 16 * (h1 + carry0 - 10 * carry1) + (h0 - 10 * carry0)
    ensures Daa(s).c == (carry1 == 1)
  {
    LowCorrected(s, h1, h0, carry0);
    HighCorrected(if s.h || s.a % 16 > 9 then s.a + 0x06 else s.a, h1 + carry0, h0 - 10 * carry0, s.c);
  }

  /** The correction of the high digit. */
  lemma HighCorrected(low: int, high: int, digit: int, c: bool)
    requires 0 <= high <= 19 && 0 <= digit <= 9 && (c ==> high >= 10)
    requires low == 16 * high + digit - (if c then 0x100 else 0)
    ensures var value := if c || low > 0x9F then low + 0x60 else low;
            && value % 0x100 == 16 * (if high > 9 then high - 10 else high) + digit
            && (c || value >= 0x100 <==> high > 9)
  {
  }

  /** The correction of the low digit. */
  lemma LowCorrected(s: Alu, h1: int, h0: int, carry0: int)
    requires 0 <= h1 <= 18 && 0 <= h0 <= 19 && carry0 == (if h0 > 9 then 1 else 0) && s.h == (h0 >= 16)
    requires s.a == 16 * h1 + h0 - (if s.c then 0x100 else 0)
    ensures (if s.h || s.a % 16 > 9 then s.a + 0x06 else s.a) ==
            16 * (h1 + carry0) + (h0 - 10 * carry0) - (if s.c then 0x100 else 0)
  {
    if h0 >= 16 {
      Nibbles(h1 + 1 - (if s.c then 16 else 0), h0 - 16);
    } else {
      Nibbles(h1 - (if s.c then 16 else 0), h0);
    }
  }

  /** DAA after an addition of two-digit numbers gives their two-digit sum and its carry. */
  lemma AddThenDaa(s: Alu, v: byte, carry: bool)
    requires IsBcd(s.a) && IsBcd(v)
    ensures var r := Daa(Add(s, v, carry));
            && IsBcd(r.a) && (r.z <==> r.a == 0) && !r.h && !r.n
            && Decimal(r.a) + (if r.c then 100 else 0) ==
               Decimal(s.a) + Decimal(v) + (if carry && s.c then 1 else 0)
  {
    var h1, h0 := s.a / 16 + v / 16, s.a % 16 + v % 16 + (if carry && s.c then 1 else 0);
    var carry0 := if h0 > 9 then 1 else 0;
    var carry1 := if h1 + carry0 > 9 then 1 else 0;
    AddDigits(s, v, carry);
    CorrectedSum(Add(s, v, carry), h1, h0, carry0, carry1);
    DecimalByte(Daa(Add(s, v, carry)).a, h1 + carry0 - 10 * carry1, h0 - 10 * carry0);
  }

  /** The digits of a subtraction before correction. */
  lemma SubDigits(s: Alu, v: byte, carry: bool)
    ensures var r := Sub(s, v, carry);
            var d1, d0 := s.a / 16 - v / 16, s.a % 16 - v % 16 - (if carry && s.c then 1 else 0);
            && r.n && r.c == (16 * d1 + d0 < 0) && r.h == (d0 < 0)
            && r.a == 16 * d1 + d0 + (if r.c then 0x100 else 0)
  {
  }

  /** The correction of a difference, by its digits: `d0` is the digit difference with the borrow in. */
  lemma CorrectedDifference(s: Alu, d1: int, d0: int, borrow0: int, borrow1: int)
    requires -9 <= d1 <= 9 && -10 <= d0 <= 9 && s.n
    requires borrow0 == (if d0 < 0 then 1 else 0) && borrow1 == (if d1 - borrow0 < 0 then 1 else 0)
    requires s.c == (16 * d1 + d0 < 0) && s.h == (d0 < 0)
    requires s.a == 16 * d1 + d0 + (if s.c then 0x100 else 0)
    ensures Daa(s).a == 16 * (d1 - borrow0 + 10 * borrow1) + (d0 + 10 * borrow0)
    ensures Daa(s).c == (borrow1 == 1)
  {
    var low := if s.h then (s.a - 0x06) % 0x100 else s.a;
    assert low == 16 * (d1 - borrow0) + (d0 + 10 * borrow0) + (if s.c then 0x100 else 0);
  }

  /** DAA after a subtraction of two-digit numbers gives their two-digit difference and its borrow. */
  lemma SubThenDaa(s: Alu, v: byte, carry: bool)
    requires IsBcd(s.a) && IsBcd(v)
    ensures var r := Daa(Sub(s, v, carry));
            && IsBcd(r.a) && (r.z <==> r.a == 0) && !r.h && r.n
            && Decimal(r.a) - (if r.c then 100 else 0) ==
               Decimal(s.a) - Decimal(v) - (if carry && s.c then 1 else 0)
  {
    var d1, d0 := s.a / 16 - v / 16, s.a % 16 - v % 16 - (if carry && s.c then 1 else 0);
    var borrow0 := if d0 < 0 then 1 else 0;
    var borrow1 := if d1 - borrow0 < 0 then 1 else 0;
    SubDigits(s, v, carry);
    CorrectedDifference(Sub(s, v, carry), d1, d0, borrow0, borrow1);
    DecimalByte(Daa(Sub(s, v, carry)).a, d1 - borrow0 + 10 * borrow1, d0 + 10 * borrow0);
  }

  // ---- Numbers of any length ---------------------------------------------------------------------

  predicate AllBcd(bytes: seq<byte>) {
    forall b | b in bytes :: IsBcd(b)
  }

  /** The number that BCD bytes stand for, low byte first. */
  function Number(bytes: seq<byte>): int {
    if bytes == [] then 0 else Decimal(bytes[0]) + 100 * Number(bytes[1..])
  }

  function Pow100(n: nat): int {
    if n == 0 then 1 else 100 * Pow100(n - 1)
  }

  datatype Operation = Adding | Subtracting

  /** Load a byte, add or subtract another, correct. */
  function DecimalStep(op: Operation, s: Alu, x: byte, y: byte, carry: bool): Alu {
    match op
    case Adding => Daa(Add(s.(a := x), y, carry))
    case Subtracting => Daa(Sub(s.(a := x), y, carry))
  }

  /** ADD or SUB on the low bytes, then ADC or SBC on the rest, each followed by DAA: the result's bytes
      and the last state. `first` marks the low byte. */
  function Chain(op: Operation, s: Alu, xs: seq<byte>, ys: seq<byte>, first: bool): (r: (seq<byte>, Alu))
    requires |xs| == |ys|
    ensures |r.0| == |xs|
    decreases |xs|
  {
    if xs == [] then ([], s)
    else
      var t := DecimalStep(op, s, xs[0], ys[0], !first);
      var (zs, u) := Chain(op, t, xs[1..], ys[1..], false);
      ([t.a] + zs, u)
  }

  /** The carry or borrow that goes into a chain. */
  function CarryIn(s: Alu, first: bool): int {
    if !first && s.c then 1 else 0
  }

  lemma {:induction false} ChainAdds(s: Alu, xs: seq<byte>, ys: seq<byte>, first: bool)
    requires |xs| == |ys| && AllBcd(xs) && AllBcd(ys)
    ensures var (zs, u) := Chain(Adding, s, xs, ys, first);
            && AllBcd(zs)
            && Number(zs) + Pow100(|xs|) * CarryIn(u, first && xs == []) ==
               Number(xs) + Number(ys) + CarryIn(s, first)
    decreases |xs|
  {
    if xs == [] {
    } else {
      var t := DecimalStep(Adding, s, xs[0], ys[0], !first);
      AddThenDaa(s.(a := xs[0]), ys[0], !first);
      ChainAdds(t, xs[1..], ys[1..], false);
      var (zs, u) := Chain(Adding, t, xs[1..], ys[1..], false);
      assert ([t.a] + zs)[1..] == zs;
      Scaled(Pow100(|xs| - 1), CarryIn(u, false));
    }
  }

  lemma {:induction false} ChainSubtracts(s: Alu, xs: seq<byte>, ys: seq<byte>, first: bool)
    requires |xs| == |ys| && AllBcd(xs) && AllBcd(ys)
    ensures var (zs, u) := Chain(Subtracting, s, xs, ys, first);
            && AllBcd(zs)
            && Number(zs) - Pow100(|xs|) * CarryIn(u, first && xs == []) ==
               Number(xs) - Number(ys) - CarryIn(s, first)
    decreases |xs|
  {
    if xs == [] {
    } else {
      var t := DecimalStep(Subtracting, s, xs[0], ys[0], !first);
      SubThenDaa(s.(a := xs[0]), ys[0], !first);
      ChainSubtracts(t, xs[1..], ys[1..], false);
      var (zs, u) := Chain(Subtracting, t, xs[1..], ys[1..], false);
      assert ([t.a] + zs)[1..] == zs;
      Scaled(Pow100(|xs| - 1), CarryIn(u, false));
    }
  }

  lemma Scaled(p: int, c: int)
    requires c == 0 || c == 1
    ensures (100 * p) * c == 100 * (p * c)
  {
  }

  lemma {:induction false} NumberBelow(bytes: seq<byte>)
    requires AllBcd(bytes)
    ensures 0 <= Number(bytes) < Pow100(|bytes|)
  {
    if bytes == [] {
    } else {
      assert bytes[0] in bytes && forall b | b in bytes[1..] :: b in bytes;
      NumberBelow(bytes[1..]);
    }
  }

  /** Adding BCD numbers of any length byte by byte gives the digits of their sum, and the carry flag its
      top digit. */
  lemma DecimalAddition(s: Alu, xs: seq<byte>, ys: seq<byte>)
    requires |xs| == |ys| > 0 && AllBcd(xs) && AllBcd(ys)
    ensures var (zs, u) := Chain(Adding, s, xs, ys, true);
            var sum := Number(xs) + Number(ys);
            && AllBcd(zs)
            && (u.c <==> sum >= Pow100(|xs|))
            && Number(zs) == (if u.c then sum - Pow100(|xs|) else sum)
  {
    ChainAdds(s, xs, ys, true);
    NumberBelow(Chain(Adding, s, xs, ys, true).0);
  }

  /** Subtracting them gives the digits of their difference modulo 10 to the number of digits, and the
      carry flag the borrow. */
  lemma DecimalSubtraction(s: Alu, xs: seq<byte>, ys: seq<byte>)
    requires |xs| == |ys| > 0 && AllBcd(xs) && AllBcd(ys)
    ensures var (zs, u) := Chain(Subtracting, s, xs, ys, true);
            && AllBcd(zs)
            && (u.c <==> Number(xs) < Number(ys))
            && Number(zs) == Number(xs) - Number(ys) + (if u.c then Pow100(|xs|) else 0)
  {
    ChainSubtracts(s, xs, ys, true);
    NumberBelow(Chain(Subtracting, s, xs, ys, true).0);
  }
}
