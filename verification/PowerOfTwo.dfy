/** roundUpToPowerOfTwo (ircreader/ircreader.go): smearing the top bit downwards. */
module PowerOfTwo {

  function Pow2(k: nat): (r: nat)
    ensures r >= 1
  {
    if k == 0 then 1 else 2 * Pow2(k - 1)
  }

  /** Bitwise or of naturals. */
  function Or(a: nat, b: nat): (r: nat)
    ensures r >= a && r >= b
    decreases a + b
  {
    if a == 0 then b
    else if b == 0 then a
    else 2 * Or(a / 2, b / 2) + if a % 2 == 1 || b % 2 == 1 then 1 else 0
  }

  /** x >> k. */
  function Shr(x: nat, k: nat): (r: nat)
    decreases k
  {
    if k == 0 then x else Shr(x / 2, k - 1)
  }

  /** The code: v is Go's int, nonnegative after the first step. */
  function RoundUp(v: int): (r: int)
    requires v >= 1
    ensures r >= v
  {
    var v0 := v - 1;
    var v1 := Or(v0, Shr(v0, 1));
    var v2 := Or(v1, Shr(v1, 2));
    var v3 := Or(v2, Shr(v2, 4));
    var v4 := Or(v3, Shr(v3, 8));
    var v5 := Or(v4, Shr(v4, 16));
    v5 + 1
  }

  // ----- what the five steps compute -----

  lemma {:induction false} OrHalf(a: nat, b: nat)
    ensures Or(a, b) / 2 == Or(a / 2, b / 2)
    ensures Or(a, b) % 2 == if a % 2 == 1 || b % 2 == 1 then 1 else 0
  {
  }

  lemma {:induction false} OrAssoc(a: nat, b: nat, c: nat)
    ensures Or(Or(a, b), c) == Or(a, Or(b, c))
    decreases a + b + c
  {
    if a != 0 && b != 0 && c != 0 {
      OrHalf(a, b);
      OrHalf(b, c);
      OrHalf(Or(a, b), c);
      OrHalf(a, Or(b, c));
      OrAssoc(a / 2, b / 2, c / 2);
    }
  }

  lemma {:induction false} ShrOr(a: nat, b: nat, k: nat)
    ensures Shr(Or(a, b), k) == Or(Shr(a, k), Shr(b, k))
    decreases k
  {
    if k > 0 {
      OrHalf(a, b);
      ShrOr(a / 2, b / 2, k - 1);
    }
  }

  lemma {:induction false} ShrShr(x: nat, j: nat, k: nat)
    ensures Shr(Shr(x, j), k) == Shr(x, j + k)
    decreases j
  {
    if j > 0 {
      ShrShr(x / 2, j - 1, k);
    }
  }

  /** x | x>>1 | ... | x>>(k-1). */
  function Smear(x: nat, k: nat): (r: nat) {
    if k == 0 then 0 else Or(x, Smear(x / 2, k - 1))
  }

  lemma {:induction false} SmearAdd(x: nat, j: nat, k: nat)
    ensures Smear(x, j + k) == Or(Smear(x, j), Smear(Shr(x, j), k))
    decreases j
  {
    if j > 0 {
      SmearAdd(x / 2, j - 1, k);
      OrAssoc(x, Smear(x / 2, j - 1), Smear(Shr(x, j), k));
    }
  }

  lemma {:induction false} ShrSmear(x: nat, k: nat, j: nat)
    ensures Shr(Smear(x, k), j) == Smear(Shr(x, j), k)
    decreases k
  {
    if k == 0 {
      ShrZero(j);
    } else {
      ShrOr(x, Smear(x / 2, k - 1), j);
      ShrSmear(x / 2, k - 1, j);
      ShrShr(x, 1, j);
      ShrShr(x, j, 1);
    }
  }

  lemma {:induction false} ShrZero(j: nat)
    ensures Shr(0, j) == 0
    decreases j
  {
    if j > 0 {
      ShrZero(j - 1);
    }
  }

  /** One step doubles the width of the smear. */
  lemma {:induction false} SmearStep(x: nat, k: nat)
    ensures Or(Smear(x, k), Shr(Smear(x, k), k)) == Smear(x, k + k)
  {
    ShrSmear(x, k, k);
    SmearAdd(x, k, k);
  }

  lemma {:induction false} Pow2Doubles(i: nat)
    ensures Pow2(i + 1) == 2 * Pow2(i)
  {
  }

  lemma {:induction false} Pow2Monotone(i: nat, j: nat)
    requires i <= j
    ensures Pow2(i) <= Pow2(j)
    decreases j
  {
    if i < j {
      Pow2Monotone(i, j - 1);
    }
  }

  lemma {:induction false} RoundUpIsSmear(v: int)
    requires v >= 1
    ensures RoundUp(v) == Smear(v - 1, 32) + 1
  {
    var x := v - 1;
    assert Smear(x, 1) == x;
    SmearStep(x, 1);
    SmearStep(x, 2);
    SmearStep(x, 4);
    SmearStep(x, 8);
    SmearStep(x, 16);
  }

  // ----- when the result is a power of two -----

  /** One of the k lowest bits is set. */
  predicate LowOne(x: nat, k: nat) {
    k > 0 && (x % 2 == 1 || LowOne(x / 2, k - 1))
  }

  /** No 32 zeros in a row below the leading one. */
  predicate Dense(x: nat) {
    x == 0 || (LowOne(x, 32) && Dense(x / 2))
  }

  /** The lowest bit of a smear says whether one of the k lowest bits is set. */
  lemma {:induction false} SmearBit(x: nat, k: nat)
    ensures Smear(x, k) % 2 == if LowOne(x, k) then 1 else 0
    ensures Smear(x, k) / 2 == Smear(x / 2, k)
    decreases k
  {
    if k > 0 {
      SmearBit(x / 2, k - 1);
      OrHalf(x, Smear(x / 2, k - 1));
    }
  }

  /** Powers of two less one are the numbers whose bits are all ones. */
  lemma {:induction false} OnesHalf(y: nat, j: nat)
    requires y > 0
    ensures y == Pow2(j) - 1 <==> j > 0 && y % 2 == 1 && y / 2 == Pow2(j - 1) - 1
  {
  }

  lemma {:induction false} SmearZero(k: nat)
    ensures Smear(0, k) == 0
  {
    if k > 0 {
      SmearZero(k - 1);
    }
  }

  lemma {:induction false} DenseSmear(x: nat) returns (j: nat)
    requires Dense(x)
    ensures Smear(x, 32) == Pow2(j) - 1
    ensures j > 0 ==> Pow2(j - 1) <= x
  {
    if x == 0 {
      SmearZero(32);
      return 0;
    }
    j := DenseSmear(x / 2);
    SmearBit(x, 32);
    j := j + 1;
  }

  lemma {:induction false} SmearDense(x: nat, j: nat)
    requires Smear(x, 32) == Pow2(j) - 1
    ensures Dense(x)
    decreases x
  {
    hide Smear;
    if x > 0 {
      SmearBit(x, 32);
      SmearPositive(x, 32);
      OnesHalf(Smear(x, 32), j);
      SmearDense(x / 2, j - 1);
    }
  }

  lemma {:induction false} SmearPositive(x: nat, k: nat)
    requires k > 0
    ensures Smear(x, k) >= x
  {
  }

  /** For every v: the result is a power of two if and only if v - 1 has no 32 zeros in a row
      below its leading one; and then it is the least that is at least v. */
  lemma {:induction false} RoundUpIsPowerIff(v: int, i: nat)
    requires v >= 1
    ensures (exists j: nat :: RoundUp(v) == Pow2(j)) <==> Dense(v - 1)
    ensures Dense(v - 1) && v <= Pow2(i) ==> RoundUp(v) <= Pow2(i)
  {
    hide RoundUp;
    hide Smear;
    hide Pow2;
    hide Dense;
    RoundUpIsSmear(v);
    if Dense(v - 1) {
      var j := DenseSmear(v - 1);
      assert RoundUp(v) == Pow2(j);
      if i < j {
        Pow2Monotone(i, j - 1);
      } else {
        Pow2Monotone(j, i);
      }
    } else if exists j: nat :: RoundUp(v) == Pow2(j) {
      var j: nat :| RoundUp(v) == Pow2(j);
      SmearDense(v - 1, j);
      assert false;
    }
  }

  lemma {:induction false} LowOneBelow(x: nat, k: nat)
    requires 0 < x < Pow2(k)
    ensures LowOne(x, k)
    decreases k
  {
    if x % 2 == 0 {
      LowOneBelow(x / 2, k - 1);
    }
  }

  lemma {:induction false} DenseBelow(x: nat)
    requires x < Pow2(32)
    ensures Dense(x)
  {
    hide Pow2;
    hide LowOne;
    if x > 0 {
      LowOneBelow(x, 32);
      DenseBelow(x / 2);
    }
  }

  lemma {:induction false} NoLowOne(k: nat)
    ensures !LowOne(Pow2(k), k)
  {
    if k > 0 {
      NoLowOne(k - 1);
    }
  }

  /** It holds for every v up to 2^32, and 2^32 + 1 is the first v for which it does not. */
  lemma {:induction false} RoundUpFirstFailure(v: int)
    ensures 1 <= v <= Pow2(32) ==> Dense(v - 1)
    ensures !Dense(Pow2(32)) && !(exists j: nat :: RoundUp(Pow2(32) + 1) == Pow2(j))
  {
    hide Pow2;
    hide LowOne;
    hide RoundUp;
    NoLowOne(32);
    RoundUpIsPowerIff(Pow2(32) + 1, 0);
    if 1 <= v <= Pow2(32) {
      DenseBelow(v - 1);
    }
  }

  /** For 1 <= v <= 2^32 the result is a power of two, and the least that is at least v. */
  lemma {:induction false} RoundUpIsLeastPower(v: int, i: nat) returns (j: nat)
    requires 1 <= v <= Pow2(32)
    ensures RoundUp(v) == Pow2(j) && v <= Pow2(j)
    ensures v <= Pow2(i) ==> RoundUp(v) <= Pow2(i)
  {
    hide RoundUp;
    hide Pow2;
    hide Smear;
    hide Dense;
    DenseBelow(v - 1);
    RoundUpIsPowerIff(v, i);
    RoundUpIsSmear(v);
    j := DenseSmear(v - 1);
  }

  // ----- Go's int of limited width -----

  lemma {:induction false} OrBelow(a: nat, b: nat, k: nat)
    requires a < Pow2(k) && b < Pow2(k)
    ensures Or(a, b) < Pow2(k)
    decreases k
  {
    if a != 0 && b != 0 {
      OrBelow(a / 2, b / 2, k - 1);
    }
  }

  lemma {:induction false} SmearBelow(x: nat, n: nat, k: nat)
    requires x < Pow2(k)
    ensures Smear(x, n) < Pow2(k)
    decreases n
  {
    if n > 0 {
      SmearBelow(x / 2, n - 1, k);
      OrBelow(x, Smear(x / 2, n - 1), k);
    }
  }

  /** The code on a signed int of w bits and a sign (31 or 63): only the last addition can
      overflow, and then it wraps to the least number. */
  function RoundUpWrapped(v: int, w: nat): (r: int)
    requires 1 <= v < Pow2(w)
  {
    if RoundUp(v) == Pow2(w) then 0 - Pow2(w) else RoundUp(v)
  }

  /** On every positive int: the result is in range, and a power of two if and only if v is at
      most 2^(w-1) and v - 1 has no 32 zeros in a row below its leading one. */
  lemma {:induction false} RoundUpWrappedIff(v: int, w: nat)
    requires w > 0 && 1 <= v < Pow2(w)
    ensures 0 - Pow2(w) <= RoundUpWrapped(v, w) < Pow2(w)
    ensures (exists j: nat :: RoundUpWrapped(v, w) == Pow2(j)) <==> v <= Pow2(w - 1) && Dense(v - 1)
  {
    hide Smear;
    hide RoundUp;
    hide Dense;
    RoundUpIsSmear(v);
    SmearBelow(v - 1, 32, w);
    assert Pow2(w) == 2 * Pow2(w - 1);
    hide Pow2;
    if v <= Pow2(w - 1) {
      SmearBelow(v - 1, 32, w - 1);
      RoundUpIsPowerIff(v, w - 1);
    } else if RoundUp(v) != Pow2(w) && exists j: nat :: RoundUp(v) == Pow2(j) {
      var j: nat :| RoundUp(v) == Pow2(j);
      if j < w {
        Pow2Monotone(j, w - 1);
      } else {
        Pow2Monotone(w, j);
      }
      assert false;
    }
  }
}
