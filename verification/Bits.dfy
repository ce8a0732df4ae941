/** Powers of two, bit reversal and the index arithmetic of radix-2 butterflies. */
module Bits {

  function Pow2(k: nat): (p: nat)
    ensures p > 0
  {
    if k == 0 then 1 else 2 * Pow2(k - 1)
  }

  /** The low `bits` bits of i in reverse order. */
  function Rev(bits: nat, i: nat): nat
  {
    if bits == 0 then 0
    else if i % 2 == 1 then Pow2(bits - 1) + Rev(bits - 1, i / 2)
    else Rev(bits - 1, i / 2)
  }

  lemma {:induction false} RevBound(bits: nat, i: nat)
    ensures Rev(bits, i) < Pow2(bits)
  {
    if bits > 0 { RevBound(bits - 1, i / 2); }
  }

  lemma {:induction false} RevZero(bits: nat)
    ensures Rev(bits, 0) == 0
  {
    if bits > 0 { RevZero(bits - 1); }
  }

  lemma {:induction false} Pow2Mono(a: nat, b: nat)
    requires a <= b
    ensures Pow2(a) <= Pow2(b)
  {
    if a < b { Pow2Mono(a, b - 1); }
  }

  /** Reversal seen from the other end: the last bit of the result is the top bit of i. */
  lemma {:induction false} RevFromTop(bits: nat, i: nat, top: bool)
    requires i < Pow2(bits)
    ensures Rev(bits + 1, WithTop(bits, i, top)) == 2 * Rev(bits, i) + Bit(top)
  {
    var v := WithTop(bits, i, top);
    if bits > 0 {
      assert v == 2 * WithTop(bits - 1, i / 2, top) + i % 2;
      RevFromTop(bits - 1, i / 2, top);
    }
  }

  function Bit(b: bool): nat { if b then 1 else 0 }

  /** The (bits+1)-bit number with leading bit `top` and low bits i. */
  function WithTop(bits: nat, i: nat, top: bool): nat { if top then Pow2(bits) + i else i }

  /** Reversing twice gives the index back. */
  lemma {:induction false} RevInvolution(bits: nat, i: nat)
    requires i < Pow2(bits)
    ensures Rev(bits, Rev(bits, i)) == i
  {
    if bits > 0 {
      RevBound(bits - 1, i / 2);
      RevFromTop(bits - 1, Rev(bits - 1, i / 2), i % 2 == 1);
      RevInvolution(bits - 1, i / 2);
    }
  }

  /** Adding one to i carries through the reversed counter from its top bit. */
  lemma RevCarry(bits: nat, i: nat)
    requires bits > 0
    ensures i % 2 == 0 ==> Rev(bits, i) < Pow2(bits - 1) && Rev(bits, i + 1) == Rev(bits, i) + Pow2(bits - 1)
    ensures i % 2 == 1 ==> Rev(bits, i) == Pow2(bits - 1) + Rev(bits - 1, i / 2)
                           && Rev(bits, i + 1) == Rev(bits - 1, i / 2 + 1)
  {
    RevBound(bits - 1, i / 2);
    if i % 2 == 0 {
      assert (i + 1) / 2 == i / 2 && (i + 1) % 2 == 1;
    } else {
      assert (i + 1) / 2 == i / 2 + 1 && (i + 1) % 2 == 0;
    }
  }

  lemma ExponentLess(a: nat, b: nat)
    requires Pow2(a) < Pow2(b)
    ensures a < b
  {
    if b <= a { Pow2Mono(b, a); }
  }

  lemma {:induction false} Pow2Strict(a: nat, b: nat)
    requires a < b
    ensures Pow2(a) < Pow2(b)
  {
    Pow2Mono(a, b - 1);
  }

  lemma ExponentBound(a: nat, b: nat)
    requires Pow2(a) <= Pow2(b)
    ensures a <= b
  {
    if b < a { Pow2Strict(b, a); }
  }

  lemma ExponentUnique(a: nat, b: nat)
    requires Pow2(a) == Pow2(b) || (a <= b && Pow2(b) <= Pow2(a))
    ensures a == b
  {
    if a < b { Pow2Strict(a, b); }
    if b < a { Pow2Strict(b, a); }
  }
}
