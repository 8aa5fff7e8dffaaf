/**
  Machine words as numbers below a power of two, with their bits: what `|`, `&`, `!`, `1 << n` and
  `w & (w - 1)` do to each of them.
 */
module Bits {

  function Pow2(n: nat): (p: nat)
    ensures p > 0
  {
    if n == 0 then 1 else 2 * Pow2(n - 1)
  }

  predicate Bit(w: nat, i: nat) {
    if i == 0 then w % 2 == 1 else Bit(w / 2, i - 1)
  }

  function Or(a: nat, b: nat): nat
    decreases a + b
  {
    if a == 0 && b == 0 then 0
    else 2 * Or(a / 2, b / 2) + if a % 2 == 1 || b % 2 == 1 then 1 else 0
  }

  function And(a: nat, b: nat): nat {
    if a == 0 then 0
    else 2 * And(a / 2, b / 2) + if a % 2 == 1 && b % 2 == 1 then 1 else 0
  }

  /** The complement in a word of the given width. */
  function Not(w: nat, width: nat): nat
    requires w < Pow2(width)
  {
    Pow2(width) - 1 - w
  }

  lemma {:induction false} OrBit(a: nat, b: nat, i: nat)
    ensures Bit(Or(a, b), i) <==> Bit(a, i) || Bit(b, i)
    decreases i
  {
    if a == 0 && b == 0 {
    } else if i > 0 {
      OrBit(a / 2, b / 2, i - 1);
    }
  }

  lemma {:induction false} ZeroBit(i: nat)
    ensures !Bit(0, i)
  {
    if i > 0 {
      ZeroBit(i - 1);
    }
  }

  lemma {:induction false} AndBit(a: nat, b: nat, i: nat)
    ensures Bit(And(a, b), i) <==> Bit(a, i) && Bit(b, i)
    decreases i
  {
    if a == 0 {
      ZeroBit(i);
    } else if i > 0 {
      AndBit(a / 2, b / 2, i - 1);
    }
  }

  lemma {:induction false} NotBit(w: nat, width: nat, i: nat)
    requires w < Pow2(width) && i < width
    ensures Not(w, width) < Pow2(width)
    ensures Bit(Not(w, width), i) <==> !Bit(w, i)
    decreases i
  {
    if i > 0 {
      assert Not(w, width) / 2 == Not(w / 2, width - 1);
      NotBit(w / 2, width - 1, i - 1);
    }
  }

  /** The only set bit of `1 << n` is bit `n`. */
  lemma {:induction false} OneBit(n: nat, i: nat)
    ensures Bit(Pow2(n), i) <==> i == n
    decreases i
  {
    if i == 0 || n == 0 {
      if i > 0 {
        ZeroBit(i - 1);
      }
    } else {
      assert Pow2(n) / 2 == Pow2(n - 1);
      OneBit(n - 1, i - 1);
    }
  }

  lemma {:induction false} OrInWidth(a: nat, b: nat, width: nat)
    requires a < Pow2(width) && b < Pow2(width)
    ensures Or(a, b) < Pow2(width)
  {
    if width > 0 {
      OrInWidth(a / 2, b / 2, width - 1);
    }
  }

  lemma {:induction false} PowerGrows(m: nat, n: nat)
    requires m < n
    ensures Pow2(m) < Pow2(n)
  {
    if m + 1 < n {
      PowerGrows(m, n - 1);
    }
  }

  /** No bit is set beyond the width. */
  lemma {:induction false} BitInWidth(w: nat, width: nat, i: nat)
    requires w < Pow2(width) && Bit(w, i)
    ensures i < width
    decreases i
  {
    if width == 0 {
      ZeroBit(i);
    } else if i > 0 {
      BitInWidth(w / 2, width - 1, i - 1);
    }
  }

  // ---- the lowest set bit ----

  /** `trailing_zeros` of a word that is not zero. */
  function TrailingZeros(w: nat): nat
    requires w != 0
  {
    if w % 2 == 1 then 0 else 1 + TrailingZeros(w / 2)
  }

  lemma {:induction false} LowestIsSet(w: nat)
    requires w != 0
    ensures Bit(w, TrailingZeros(w))
  {
    if w % 2 != 1 {
      LowestIsSet(w / 2);
    }
  }

  lemma {:induction false} LowestIsLowest(w: nat, i: nat)
    requires w != 0 && Bit(w, i)
    ensures TrailingZeros(w) <= i
    decreases i
  {
    if w % 2 != 1 && i > 0 {
      LowestIsLowest(w / 2, i - 1);
    }
  }

  lemma SomeBit(w: nat, width: nat)
    requires 0 < w < Pow2(width)
    ensures exists i :: 0 <= i < width && Bit(w, i)
  {
    LowestIsSet(w);
    BitInWidth(w, width, TrailingZeros(w));
  }

  lemma {:induction false} AndSelf(w: nat)
    ensures And(w, w) == w
  {
    if w > 0 {
      AndSelf(w / 2);
    }
  }

  /** `w & (w - 1)` clears the lowest set bit and nothing else. */
  lemma {:induction false} ClearLowest(w: nat, i: nat)
    requires w != 0
    ensures And(w, w - 1) < w
    ensures Bit(And(w, w - 1), i) <==> Bit(w, i) && i != TrailingZeros(w)
    decreases w
  {
    if w % 2 == 1 {
      assert (w - 1) / 2 == w / 2;
      AndSelf(w / 2);
      assert And(w, w - 1) == w - 1;
    } else {
      assert (w - 1) / 2 == w / 2 - 1;
      assert And(w, w - 1) == 2 * And(w / 2, w / 2 - 1);
      ClearLowest(w / 2, if i > 0 then i - 1 else 0);
    }
  }
}
