/** The 96-bit accumulator of scalar_8x32_impl.h. Its macros work on 32-bit words that wrap
around and recover every carry by a comparison. */
module Accumulator {
  import opened Numbers

  const WORD: nat := 0x1_0000_0000
  type Word = x: nat | x < WORD witness 0

  datatype Acc = Acc(c0: Word, c1: Word, c2: Word)

  function Total(c: Acc): nat {
    c.c0 + WORD * (c.c1 + WORD * c.c2)
  }

  /** An accumulator that holds one word, or none. */
  lemma SmallTotal(x: Word)
    ensures Total(Acc(x, 0, 0)) == x
  {
  }

  /** The sum of two words, without the carry. */
  function Plus(x: Word, y: Word): Word {
    (x + y) % WORD
  }

  function Carry(b: bool): Word {
    if b then 1 else 0
  }

  /** A sum that wraps around is smaller than either operand. */
  lemma PlusCarry(x: Word, y: Word)
    ensures x + y == Plus(x, y) + WORD * Carry(Plus(x, y) < y)
  {
  }

  /** The product of two words. */
  function Times(x: Word, y: Word): (t: nat)
    ensures t <= (WORD - 1) * (WORD - 1)
  {
    ProductBound(x, y, WORD - 1);
    x * y
  }

  lemma ProductBound(x: nat, y: nat, bound: nat)
    requires x <= bound && y <= bound
    ensures 0 <= x * y <= bound * bound
  {
    MulMonotone(x, bound, y);
    MulMonotone(y, bound, bound);
  }

  lemma HighAndLow(t: nat)
    requires t <= (WORD - 1) * (WORD - 1)
    ensures t / WORD <= WORD - 2 && t % WORD < WORD && t == t / WORD * WORD + t % WORD
    ensures t / WORD == WORD - 2 ==> t % WORD <= 1
  {
  }

  /** `muladd`: adds a * b, which the caller guarantees to fit 96 bits. */
  method MulAdd(c: Acc, a: Word, b: Word) returns (r: Acc)
    requires Total(c) + Times(a, b) < WORD * WORD * WORD
    ensures Total(r) == Total(c) + Times(a, b)
  {
    var t := a * b;
    assert t == Times(a, b);
    HighAndLow(t);
    hide Times, Plus;
    var th: Word := t / WORD;
    var tl: Word := t % WORD;
    var c0 := Plus(c.c0, tl);
    PlusCarry(c.c0, tl);
    th := th + Carry(c0 < tl);
    var c1 := Plus(c.c1, th);
    PlusCarry(c.c1, th);
    var c2 := c.c2 + Carry(c1 < th);
    r := Acc(c0, c1, c2);
  }

  /** `muladd_fast`: the same when the sum fits 64 bits. */
  method MulAddFast(c: Acc, a: Word, b: Word) returns (r: Acc)
    requires c.c2 == 0 && Total(c) + Times(a, b) < WORD * WORD
    ensures Total(r) == Total(c) + Times(a, b) && r.c2 == 0
  {
    var t := a * b;
    assert t == Times(a, b);
    HighAndLow(t);
    hide Times, Plus;
    var th: Word := t / WORD;
    var tl: Word := t % WORD;
    var c0 := Plus(c.c0, tl);
    PlusCarry(c.c0, tl);
    th := th + Carry(c0 < tl);
    var c1 := Plus(c.c1, th);
    PlusCarry(c.c1, th);
    assert c1 >= th;
    r := Acc(c0, c1, c.c2);
  }

  lemma DoubledWord(x: Word)
    ensures Plus(x, x) <= WORD - 2
  {
  }

  /** The first half of `muladd2`: doubles a product; the carry counts 2^64. */
  method Double(th: Word, tl: Word, c2: Word) returns (th2: Word, tl2: Word, carried: nat)
    ensures carried <= c2 + 1
    ensures tl2 + WORD * (th2 + WORD * carried) == 2 * (tl + WORD * th) + WORD * WORD * c2
  {
    hide Plus;
    DoubledWord(th);
    th2 := Plus(th, th);
    PlusCarry(th, th);
    carried := c2 + Carry(th2 < th);
    tl2 := Plus(tl, tl);
    PlusCarry(tl, tl);
    th2 := th2 + Carry(tl2 < tl);
  }

  /** The second half: adds it, where the carry out of the low word can itself carry. */
  method AddWide(c0: Word, c1: Word, c2: nat, th: Word, tl: Word) returns (r: Acc)
    requires c0 + WORD * c1 + tl + WORD * th + WORD * WORD * c2 < WORD * WORD * WORD
    ensures Total(r) == c0 + WORD * c1 + tl + WORD * th + WORD * WORD * c2
  {
    hide Plus;
    var r0 := Plus(c0, tl);
    PlusCarry(c0, tl);
    var over := Carry(r0 < tl);
    var th2 := Plus(th, over);
    PlusCarry(th, over);
    var r2 := c2 + Carry(r0 < tl && th2 == 0);
    var r1 := Plus(c1, th2);
    PlusCarry(c1, th2);
    r2 := r2 + Carry(r1 < th2);
    assert (th2 < over) == (r0 < tl && th2 == 0);
    Words(r0, r1, r2);
    r := Acc(r0, r1, r2);
  }

  lemma Words(r0: nat, r1: nat, r2: nat)
    requires r0 + WORD * (r1 + WORD * r2) < WORD * WORD * WORD
    ensures r2 < WORD
  {
  }

  /** `muladd2`: adds 2 * a * b. Doubling may carry twice, and so may the sums. */
  method MulAdd2(c: Acc, a: Word, b: Word) returns (r: Acc)
    requires Total(c) + 2 * Times(a, b) < WORD * WORD * WORD
    ensures Total(r) == Total(c) + 2 * Times(a, b)
  {
    var t := a * b;
    assert t == Times(a, b);
    HighAndLow(t);
    hide Times;
    var th: Word := t / WORD;
    var tl: Word := t % WORD;
    var th2, tl2, c2 := Double(th, tl, c.c2);
    r := AddWide(c.c0, c.c1, c2, th2, tl2);
  }

  /** `sumadd` */
  method SumAdd(c: Acc, a: Word) returns (r: Acc)
    requires Total(c) + a < WORD * WORD * WORD
    ensures Total(r) == Total(c) + a
  {
    var c0 := Plus(c.c0, a);
    PlusCarry(c.c0, a);
    hide Plus;
    var over := Carry(c0 < a);
    var c1 := Plus(c.c1, over);
    PlusCarry(c.c1, over);
    var c2 := c.c2 + Carry(c1 < over);
    r := Acc(c0, c1, c2);
  }

  /** `sumadd_fast` */
  method SumAddFast(c: Acc, a: Word) returns (r: Acc)
    requires c.c2 == 0 && Total(c) + a < WORD * WORD
    ensures Total(r) == Total(c) + a && r.c2 == 0
  {
    var c0 := Plus(c.c0, a);
    PlusCarry(c.c0, a);
    hide Plus;
    var c1 := c.c1 + Carry(c0 < a);
    r := Acc(c0, c1, c.c2);
  }

  /** `extract`: takes the lowest word out. */
  method Extract(c: Acc) returns (n: Word, r: Acc)
    ensures Total(c) == n + WORD * Total(r) && r.c2 == 0
  {
    n := c.c0;
    r := Acc(c.c1, c.c2, 0);
  }

  /** `extract_fast` */
  method ExtractFast(c: Acc) returns (n: Word, r: Acc)
    requires c.c2 == 0
    ensures Total(c) == n + WORD * Total(r) && r.c1 == 0 && r.c2 == 0
  {
    n := c.c0;
    r := Acc(c.c1, 0, c.c2);
  }
}
