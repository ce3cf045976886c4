/** Machine words as natural numbers: bit tests, shifts and the bitwise operators
    that the switch applies to them. */
module Words {

  const WORDSIZE: nat := 32

  type Word = w: nat | w < 0x1_0000_0000

  function Pow2(k: nat): (p: nat)
    ensures p >= 1
  {
    if k == 0 then 1 else 2 * Pow2(k - 1)
  }

  /** w >> j */
  function Shr(w: nat, j: nat): nat {
    if j == 0 then w else Shr(w / 2, j - 1)
  }

  /** Bit j of w: (w >> j) & 1. */
  predicate Bit(w: nat, j: nat) {
    Shr(w, j) % 2 == 1
  }

  function Or(a: nat, b: nat): nat
    decreases a + b
  {
    if a == 0 && b == 0 then 0
    else (if a % 2 == 1 || b % 2 == 1 then 1 else 0) + 2 * Or(a / 2, b / 2)
  }

  /** a & ~b */
  function AndNot(a: nat, b: nat): nat
    decreases a + b
  {
    if a == 0 then 0
    else (if a % 2 == 1 && b % 2 == 0 then 1 else 0) + 2 * AndNot(a / 2, b / 2)
  }

  function Xor(a: nat, b: nat): nat
    decreases a + b
  {
    if a == 0 && b == 0 then 0
    else (if a % 2 != b % 2 then 1 else 0) + 2 * Xor(a / 2, b / 2)
  }

  lemma {:induction false} OrBit(a: nat, b: nat, j: nat)
    ensures Bit(Or(a, b), j) <==> Bit(a, j) || Bit(b, j)
    decreases j
  {
    if j > 0 {
      assert Or(a, b) / 2 == Or(a / 2, b / 2);
      OrBit(a / 2, b / 2, j - 1);
    }
  }

  lemma {:induction false} AndNotBit(a: nat, b: nat, j: nat)
    ensures Bit(AndNot(a, b), j) <==> Bit(a, j) && !Bit(b, j)
    decreases j
  {
    if j > 0 {
      assert AndNot(a, b) / 2 == AndNot(a / 2, b / 2);
      AndNotBit(a / 2, b / 2, j - 1);
    }
  }

  lemma {:induction false} Pow2Bit(k: nat, j: nat)
    ensures Bit(Pow2(k), j) <==> j == k
  {
    if j > 0 && k > 0 {
      Pow2Bit(k - 1, j - 1);
    } else if j > 0 {
      ZeroBit(j - 1);
    }
  }

  lemma {:induction false} ZeroBit(j: nat)
    ensures !Bit(0, j)
  {
    if j > 0 { ZeroBit(j - 1); }
  }

  lemma {:induction false} Pow2Mono(j: nat, k: nat)
    requires j <= k
    ensures Pow2(j) <= Pow2(k)
    decreases k
  {
    if j < k { Pow2Mono(j, k - 1); }
  }

  /** The bitwise operators stay within the width of their operands. */
  lemma {:induction false} Width(a: nat, b: nat, n: nat)
    requires a < Pow2(n) && b < Pow2(n)
    ensures Or(a, b) < Pow2(n) && AndNot(a, b) < Pow2(n) && Xor(a, b) < Pow2(n)
    decreases n
  {
    if n > 0 { Width(a / 2, b / 2, n - 1); }
  }

  lemma Pow2Values()
    ensures Pow2(8) == 0x100 && Pow2(16) == 0x1_0000 && Pow2(31) == 0x8000_0000
    ensures Pow2(32) == 0x1_0000_0000 && Pow2(48) == 0x1_0000_0000_0000
  {
    Pow2Add(8, 8); Pow2Add(16, 16); Pow2Add(32, 16);
    assert Pow2(4) == 16 && Pow2(8) == 16 * Pow2(4);
    assert Pow2(32) == 2 * Pow2(31);
  }

  lemma {:induction false} Pow2Add(a: nat, b: nat)
    ensures Pow2(a + b) == Pow2(a) * Pow2(b)
    decreases b
  {
    if b > 0 { Pow2Add(a, b - 1); assert Pow2(a + b) == 2 * Pow2(a + b - 1); }
  }

  /** x | (1 << k) sets exactly bit k of a word. */
  lemma SetBit(w: Word, k: nat)
    requires k < WORDSIZE
    ensures Or(w, Pow2(k)) < 0x1_0000_0000
    ensures forall j: nat :: Bit(Or(w, Pow2(k)), j) <==> j == k || Bit(w, j)
  {
    Pow2Values();
    Pow2Mono(k, 31);
    Width(w, Pow2(k), 32);
    forall j: nat
      ensures Bit(Or(w, Pow2(k)), j) <==> j == k || Bit(w, j)
    {
      OrBit(w, Pow2(k), j);
      Pow2Bit(k, j);
    }
  }

  /** x & ~(1 << k) clears exactly bit k of a word. */
  lemma ClearBit(w: Word, k: nat)
    requires k < WORDSIZE
    ensures AndNot(w, Pow2(k)) < 0x1_0000_0000
    ensures forall j: nat :: Bit(AndNot(w, Pow2(k)), j) <==> j != k && Bit(w, j)
  {
    Pow2Values();
    Pow2Mono(k, 31);
    Width(w, Pow2(k), 32);
    forall j: nat
      ensures Bit(AndNot(w, Pow2(k)), j) <==> j != k && Bit(w, j)
    {
      AndNotBit(w, Pow2(k), j);
      Pow2Bit(k, j);
    }
  }

  /** Shifting one place further exposes the next bit. */
  lemma {:induction false} ShrStep(w: nat, j: nat)
    ensures Shr(w, j + 1) == Shr(w, j) / 2
    decreases j
  {
    if j > 0 { ShrStep(w / 2, j - 1); }
  }
}
