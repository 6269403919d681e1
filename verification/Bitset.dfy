/** Bitsets packed into 64-bit words, as an array that is updated in place, and the set of numbers
    that each one stands for. */
module Bitset {

  // --- Single words ----------------------------------------------------------------

  function One(a: bv64): bv64 requires a < 64 { 1 << a }

  predicate Has(w: bv64, m: bv64) { w & m != 0 }

  function With(w: bv64, m: bv64): bv64 { w | m }

  function Without(w: bv64, m: bv64): bv64 { w & !m }

  lemma WithHas(w: bv64, a: bv64, b: bv64)
    requires a < 64 && b < 64
    ensures Has(With(w, One(a)), One(b)) <==> a == b || Has(w, One(b))
  {
    hide One, Has, With, Apart;
    if a != b {
      MasksDiffer(a, b);
      OtherWith(w, One(a), One(b));
    } else {
      OneNonzero(a);
      OwnWith(w, One(a));
    }
  }

  lemma WithoutHas(w: bv64, a: bv64, b: bv64)
    requires a < 64 && b < 64
    ensures Has(Without(w, One(a)), One(b)) <==> a != b && Has(w, One(b))
  {
    hide One, Has, Without, Apart;
    if a != b {
      MasksDiffer(a, b);
      OtherWithout(w, One(a), One(b));
    } else {
      OwnWithout(w, One(a));
    }
  }

  predicate Apart(m: bv64, k: bv64) { m & k == 0 }

  lemma MasksDiffer(a: bv64, b: bv64)
    requires a < 64 && b < 64 && a != b
    ensures Apart(One(a), One(b))
  {
  }

  lemma OneNonzero(a: bv64)
    requires a < 64
    ensures One(a) != 0
  {
  }

  lemma OtherWith(w: bv64, m: bv64, k: bv64)
    requires Apart(m, k)
    ensures Has(With(w, m), k) <==> Has(w, k)
  {
  }

  lemma OtherWithout(w: bv64, m: bv64, k: bv64)
    requires Apart(m, k)
    ensures Has(Without(w, m), k) <==> Has(w, k)
  {
  }

  lemma OwnWith(w: bv64, m: bv64)
    requires m != 0
    ensures Has(With(w, m), m)
  {
  }

  lemma OwnWithout(w: bv64, m: bv64)
    ensures !Has(Without(w, m), m)
  {
  }

  /** The lowest set bit, found by halving. */
  lemma SomeBit(x: bv64) returns (a: bv64)
    requires x != 0
    ensures a < 64 && Has(x, One(a))
  {
    var y: bv64;
    a, y := 0, x;
    if y & 0xFFFF_FFFF == 0 { a, y := a + 32, y >> 32; }
    if y & 0xFFFF == 0 { a, y := a + 16, y >> 16; }
    if y & 0xFF == 0 { a, y := a + 8, y >> 8; }
    if y & 0xF == 0 { a, y := a + 4, y >> 4; }
    if y & 0x3 == 0 { a, y := a + 2, y >> 2; }
    if y & 0x1 == 0 { a, y := a + 1, y >> 1; }
  }

  function And(w: bv64, m: bv64): bv64 { w & m }

  function Xor(w: bv64, v: bv64): bv64 { w ^ v }

  lemma XorHas(w: bv64, v: bv64, m: bv64)
    requires Has(Xor(w, v), m)
    ensures And(w, m) != And(v, m)
  {
  }

  lemma OneBitAnd(w: bv64, a: bv64)
    requires a < 64
    ensures And(w, One(a)) == if Has(w, One(a)) then One(a) else 0
  {
  }

  lemma XorZero(w: bv64, v: bv64)
    requires Xor(w, v) == 0
    ensures w == v
  {
  }

  lemma DifferentWords(w: bv64, v: bv64) returns (a: bv64)
    requires w != v
    ensures a < 64 && Has(w, One(a)) != Has(v, One(a))
  {
    hide One, Has, And, Xor;
    if Xor(w, v) == 0 { XorZero(w, v); }
    a := SomeBit(Xor(w, v));
    XorHas(w, v, One(a));
    OneBitAnd(w, a);
    OneBitAnd(v, a);
  }

  // --- Positions ---------------------------------------------------------------------

  lemma Successor(x: bv64)
    requires x < 64
    ensures (x + 1) as nat == x as nat + 1
  {
  }

  lemma ThereAndBack(x: bv64)
    requires x <= 64
    ensures (x as nat) as bv64 == x
  {
  }

  lemma {:induction false} ShiftExact(k: nat)
    requires k < 64
    ensures k as bv64 < 64 && (k as bv64) as nat == k
  {
    if k > 0 {
      ShiftExact(k - 1);
      var x := (k - 1) as bv64;
      Successor(x);
      ThereAndBack(x + 1);
    }
  }

  /** How far to shift within a word for bit `i`. */
  function Shift(i: nat): (a: bv64)
    ensures a < 64
  {
    ShiftExact(i % 64);
    (i % 64) as bv64
  }

  lemma ShiftsDiffer(i: nat, j: nat)
    requires Shift(i) == Shift(j)
    ensures i % 64 == j % 64
  {
    ShiftExact(i % 64);
    ShiftExact(j % 64);
  }

  lemma SameWordOtherBit(i: nat, j: nat)
    requires i / 64 == j / 64 && i != j
    ensures Shift(i) != Shift(j)
  {
    if Shift(i) == Shift(j) {
      ShiftsDiffer(i, j);
    }
  }

  lemma BitOfWord(w: nat, bit: bv64) returns (i: nat)
    requires bit < 64
    ensures i / 64 == w && Shift(i) == bit
  {
    ThereAndBack(bit);
    i := Position(w, bit as nat);
  }

  function Position(w: nat, k: nat): (i: nat)
    requires k < 64
    ensures i / 64 == w && i % 64 == k
  {
    64 * w + k
  }

  // --- Bitsets -------------------------------------------------------------------------

  function Mask(i: nat): bv64 {
    One(Shift(i))
  }

  predicate TestBit(bits: seq<bv64>, i: nat) {
    i / 64 < |bits| && Has(bits[i / 64], Mask(i))
  }

  ghost function Members(bits: seq<bv64>): (s: set<nat>)
    ensures forall i: nat :: i in s <==> TestBit(bits, i)
  {
    set i: nat | i < 64 * |bits| && TestBit(bits, i)
  }

  lemma SetBitMembers(before: seq<bv64>, after: seq<bv64>, i: nat)
    requires i / 64 < |before|
    requires after == before[i / 64 := With(before[i / 64], Mask(i))]
    ensures Members(after) == Members(before) + {i}
  {
    hide Has, With, One, Shift;
    forall j: nat ensures TestBit(after, j) <==> j == i || TestBit(before, j) {
      WithHas(before[i / 64], Shift(i), Shift(j));
      if j / 64 == i / 64 && j != i { SameWordOtherBit(i, j); }
    }
  }

  lemma ClearBitMembers(before: seq<bv64>, after: seq<bv64>, i: nat)
    requires i / 64 < |before|
    requires after == before[i / 64 := Without(before[i / 64], Mask(i))]
    ensures Members(after) == Members(before) - {i}
  {
    hide Has, Without, One, Shift;
    forall j: nat ensures TestBit(after, j) <==> j != i && TestBit(before, j) {
      WithoutHas(before[i / 64], Shift(i), Shift(j));
      if j / 64 == i / 64 && j != i { SameWordOtherBit(i, j); }
    }
  }

  /** Equal words are the only words for a set: comparing words compares sets. */
  lemma WordsDetermined(a: seq<bv64>, b: seq<bv64>)
    requires |a| == |b|
    ensures a == b <==> Members(a) == Members(b)
  {
    hide Has, One, Shift;
    if a != b {
      var w :| 0 <= w < |a| && a[w] != b[w];
      var bit := DifferentWords(a[w], b[w]);
      var i := BitOfWord(w, bit);
      assert TestBit(a, i) != TestBit(b, i);
    }
  }

  lemma NoBits(bits: seq<bv64>)
    requires forall w :: 0 <= w < |bits| ==> bits[w] == 0
    ensures Members(bits) == {}
  {
    hide One, Shift;
    forall i: nat ensures !TestBit(bits, i) {
      if i / 64 < |bits| {
        ZeroWord(Mask(i));
      }
    }
  }

  lemma ZeroWord(m: bv64)
    ensures !Has(0, m)
  {
  }

  method SetBit(bits: array<bv64>, i: nat)
    requires i / 64 < bits.Length
    modifies bits
    ensures Members(bits[..]) == old(Members(bits[..])) + {i}
  {
    hide *;
    ghost var before := bits[..];
    bits[i / 64] := With(bits[i / 64], Mask(i));
    SetBitMembers(before, bits[..], i);
  }

  method ClearBit(bits: array<bv64>, i: nat)
    requires i / 64 < bits.Length
    modifies bits
    ensures Members(bits[..]) == old(Members(bits[..])) - {i}
  {
    hide *;
    ghost var before := bits[..];
    bits[i / 64] := Without(bits[i / 64], Mask(i));
    ClearBitMembers(before, bits[..], i);
  }
}
