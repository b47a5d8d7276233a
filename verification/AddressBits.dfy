/** Two views of an address joined: the bits that the paging macros cut out of it,
    and the divisions by which the page-table model finds its indices. */
module AddressBits {
  import opened CowMachine
  import TableTree
  import SelfReference

  // ---------------------------------------------------------------- words as numbers

  function Bit(x: bv64): nat {
    if x & 1 == 1 then 1 else 0
  }

  function Pow2(k: nat): nat {
    if k == 0 then 1 else 2 * Pow2(k - 1)
  }

  /** The number that the low k bits of x spell. */
  function Value(x: bv64, k: nat): (n: nat)
    ensures n < Pow2(k)
  {
    if k == 0 then 0 else Bit(x) + 2 * Value(x >> 1, k - 1)
  }

  function Shift(x: bv64, s: nat): bv64 {
    if s == 0 then x else Shift(x >> 1, s - 1)
  }

  lemma Doubles(b: nat, low: nat, p: nat, h: nat)
    ensures b + 2 * (low + p * h) == (b + 2 * low) + 2 * p * h
  {
  }

  /** Low bits and high bits. */
  lemma {:induction false} ValueSplits(x: bv64, s: nat, k: nat)
    ensures Value(x, s + k) == Value(x, s) + Pow2(s) * Value(Shift(x, s), k)
  {
    if s > 0 {
      ValueSplits(x >> 1, s - 1, k);
      Doubles(Bit(x), Value(x >> 1, s - 1), Pow2(s - 1), Value(Shift(x >> 1, s - 1), k));
    }
  }

  /** The low s bits of m are ones. */
  predicate Ones(m: bv64, s: nat) {
    s == 0 || (m & 1 == 1 && Ones(m >> 1, s - 1))
  }

  lemma MaskStep(x: bv64, m: bv64)
    requires m & 1 == 1
    ensures Bit(And(x, m)) == Bit(x) && And(x, m) >> 1 == And(x >> 1, m >> 1)
  {
  }

  function And(x: bv64, m: bv64): bv64 { x & m }

  /** A mask of s ones takes the low s bits. */
  lemma {:induction false} Masks(x: bv64, m: bv64, s: nat)
    requires Ones(m, s)
    ensures Value(And(x, m), s) == Value(x, s)
  {
    hide And, Bit;
    if s > 0 {
      MaskStep(x, m);
      Masks(x >> 1, m >> 1, s - 1);
    }
  }

  lemma NineOnes()
    ensures Ones(0x1ff, 9)
  {
    assert Ones(1, 1) && Ones(3, 2) && Ones(7, 3) && Ones(15, 4) && Ones(31, 5) && Ones(63, 6) && Ones(127, 7)
      && Ones(255, 8);
  }

  lemma ThriceThree(x: bv64)
    ensures ((x >> 3) >> 3) >> 3 == x >> 9
  {
  }

  lemma ShiftThree(x: bv64)
    ensures Shift(x, 3) == x >> 3
  {
    assert Shift(x, 3) == Shift(x >> 1, 2);
    assert Shift(x >> 1, 2) == Shift((x >> 1) >> 1, 1);
    assert Shift((x >> 1) >> 1, 1) == Shift(((x >> 1) >> 1) >> 1, 0);
    assert ((x >> 1) >> 1) >> 1 == x >> 3;
  }

  lemma {:induction false} ShiftTwice(x: bv64, s: nat, t: nat)
    ensures Shift(x, s + t) == Shift(Shift(x, s), t)
  {
    if s > 0 { ShiftTwice(x >> 1, s - 1, t); }
  }

  lemma ShiftNine(x: bv64)
    ensures Shift(x, 9) == x >> 9
  {
    var y := x >> 3;
    var z := y >> 3;
    ShiftTwice(x, 3, 6);
    ShiftTwice(y, 3, 3);
    ShiftThree(x);
    ShiftThree(y);
    ShiftThree(z);
    ThriceThree(x);
    hide Shift;
  }

  lemma PowNine()
    ensures Pow2(9) == 512
  {
    assert Pow2(3) == 8 && Pow2(6) == 64;
  }

  lemma Quotient(low: nat, high: nat)
    requires low < 512
    ensures (low + 512 * high) % 512 == low && (low + 512 * high) / 512 == high
  {
  }

  function Nine(x: bv64): bv64 { x & 0x1ff }
  function Above(x: bv64): bv64 { x >> 9 }

  /** Nine bits are a remainder, and the bits above them a quotient, by 512. */
  lemma NineBits(x: bv64, k: nat)
    ensures Value(x, 9 + k) % 512 == Value(Nine(x), 9) && Value(x, 9 + k) / 512 == Value(Above(x), k)
  {
    hide Value, Pow2, Shift, Ones;
    ValueSplits(x, 9, k);
    ShiftNine(x);
    NineOnes();
    Masks(x, 0x1ff, 9);
    PowNine();
    Quotient(Value(x, 9), Value(x >> 9, k));
  }

  // ---------------------------------------------------------------- the join

  /** The number of the page that an address lies in. */
  function Page(addr: bv64): nat {
    Value(Start(addr), 52)
  }

  /** The offsets that the macros and the hardware cut out of an address are those
      of the page-table model. */
  lemma OffsetsAgree(addr: bv64)
    ensures Value(SelfReference.PteField(addr), 9) == TableTree.PteOff(Page(addr))
    ensures Value(SelfReference.PmdField(addr), 9) == TableTree.PmdOff(Page(addr))
    ensures Value(SelfReference.PudField(addr), 9) == TableTree.PudOff(Page(addr))
    ensures Value(SelfReference.PgdField(addr), 9) == TableTree.PgdOff(Page(addr))
  {
    hide Value, Pow2, Nine, Above, Start, TableTree.PteOff, TableTree.PmdOff, TableTree.PudOff, TableTree.PgdOff;
    hide SelfReference.PteField, SelfReference.PmdField, SelfReference.PudField, SelfReference.PgdField;
    Fields(addr);
    var x := Start(addr);
    var y := Above(x);
    var z := Above(y);
    var w := Above(z);
    NineBits(x, 43);
    NineBits(y, 34);
    NineBits(z, 25);
    NineBits(w, 16);
    IndicesOf(Value(x, 52), Value(y, 43), Value(z, 34), Value(w, 25));
  }

  function Start(addr: bv64): bv64 { addr >> 12 }

  lemma Fields(addr: bv64)
    ensures SelfReference.PteField(addr) == Nine(Start(addr))
    ensures SelfReference.PmdField(addr) == Nine(Above(Start(addr)))
    ensures SelfReference.PudField(addr) == Nine(Above(Above(Start(addr))))
    ensures SelfReference.PgdField(addr) == Nine(Above(Above(Above(Start(addr)))))
  {
  }

  /** The four indices as repeated remainders and quotients. */
  lemma IndicesOf(v: nat, a: nat, b: nat, c: nat)
    requires v / 512 == a && a / 512 == b && b / 512 == c
    ensures TableTree.PteOff(v) == v % 512 && TableTree.PmdOff(v) == a % 512
    ensures TableTree.PudOff(v) == b % 512 && TableTree.PgdOff(v) == c % 512
  {
    DivideTwice(v);
  }

  lemma DivideTwice(v: nat)
    ensures v / 512 / 512 == v / 0x4_0000 && v / 512 / 512 / 512 == v / 0x800_0000
  {
  }

  /** So the address through which the kernel reaches a page's entry has slot 0x1fe
      and the first three of the page's own indices, and ends at its fourth. */
  lemma TrickIndices(addr: bv64)
    ensures var t := SelfReference.PteTrick(addr);
            && SelfReference.PgdField(t) == SelfReference.SELF_REF_INDEX
            && Value(SelfReference.PudField(t), 9) == TableTree.PgdOff(Page(addr))
            && Value(SelfReference.PmdField(t), 9) == TableTree.PudOff(Page(addr))
            && Value(SelfReference.PteField(t), 9) == TableTree.PmdOff(Page(addr))
            && t & 0xfff == SelfReference.PteField(addr) << 3
            && Value(SelfReference.PteField(addr), 9) == TableTree.PteOff(Page(addr))
  {
    hide Value;
    SelfReference.PteTrickFields(addr);
    OffsetsAgree(addr);
  }

  /** Both models mean the same slot by its index. */
  lemma SelfIndexAgrees()
    ensures Value(SelfReference.SELF_REF_INDEX, 9) == TableTree.SELF_REF_INDEX
  {
    assert Value(1, 1) == 1 && Value(3, 2) == 3 && Value(7, 3) == 7 && Value(15, 4) == 15;
    assert Value(31, 5) == 31 && Value(63, 6) == 63 && Value(127, 7) == 127 && Value(255, 8) == 255;
  }
}
