// Single bits of a 32-bit word.

module FdBits {

  function Bit(b: nat): bv32
    requires b < 32
  {
    (1 as bv32) << b
  }

  /** Bit 0 is 1, and each bit twice the one before. */
  lemma BitsDouble(b: nat)
    requires b < 31
    ensures Bit(0) == 1 && Bit(b + 1) == Bit(b) + Bit(b)
  {
  }

  predicate Meets(w: bv32, x: bv32) { w & x != 0 }

  function Either(w: bv32, x: bv32): bv32 { w | x }

  predicate HasBit(w: bv32, b: nat)
    requires b < 32
  {
    Meets(w, Bit(b))
  }

  lemma NeitherMeets(w: bv32, x: bv32, y: bv32)
    requires !Meets(w, y) && !Meets(x, y)
    ensures !Meets(Either(w, x), y)
  {
  }

  lemma FirstMeets(w: bv32, x: bv32, y: bv32)
    requires Meets(w, y)
    ensures Meets(Either(w, x), y)
  {
  }

  lemma SecondMeets(w: bv32, x: bv32, y: bv32)
    requires Meets(x, y)
    ensures Meets(Either(w, x), y)
  {
  }

  lemma EitherMeets(w: bv32, x: bv32, y: bv32)
    ensures Meets(Either(w, x), y) <==> Meets(w, y) || Meets(x, y)
  {
    hide Meets, Either;
    if Meets(w, y) {
      FirstMeets(w, x, y);
    } else if Meets(x, y) {
      SecondMeets(w, x, y);
    } else {
      NeitherMeets(w, x, y);
    }
  }

  lemma BitsApart(b: nat, c: nat)
    requires b < c < 32
    ensures !Meets(Bit(b), Bit(c)) && !Meets(Bit(c), Bit(b))
  {
  }

  lemma BitMeetsItself(b: nat)
    requires b < 32
    ensures Meets(Bit(b), Bit(b))
  {
  }

  /** Setting a bit sets that one and no other. */
  lemma AddedBit(w: bv32, b: nat, c: nat)
    requires b < 32 && c < 32
    ensures HasBit(Either(w, Bit(b)), c) <==> b == c || HasBit(w, c)
  {
    hide Bit, Meets, Either;
    EitherMeets(w, Bit(b), Bit(c));
    if b < c {
      BitsApart(b, c);
    } else if c < b {
      BitsApart(c, b);
    } else {
      BitMeetsItself(b);
    }
  }

  lemma NoBits(b: nat)
    requires b < 32
    ensures !HasBit(0, b)
  {
  }
}
