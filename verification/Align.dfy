/** Alignment arithmetic shared by the flash map, the scratch allocator and the memory functions. */
module Align {
  import opened SlotMask

  predicate Aligned(x: int, a: nat) {
    a > 0 && x % a == 0
  }

  lemma MultipleGrows(a: int, k: int)
    requires a > 0
    ensures k >= 1 ==> a * k >= a
    ensures k <= -1 ==> a * k <= -a
  {
  }

  lemma DivUnique(x: int, a: int, q: int, r: int)
    requires a > 0 && x == a * q + r && 0 <= r < a
    ensures x / a == q && x % a == r
  {
    assert x == a * (x / a) + x % a;
    assert a * (x / a - q) == r - x % a;
    MultipleGrows(a, x / a - q);
  }

  /** Adding a multiple of the alignment does not change the remainder. */
  lemma ModSum(x: int, y: int, a: nat)
    requires Aligned(x, a)
    ensures (x + y) % a == y % a
  {
    DivUnique(x + y, a, x / a + y / a, y % a);
  }

  lemma ModSelf(a: nat)
    requires a > 0
    ensures Aligned(a, a) && Aligned(0, a)
  {
    DivUnique(a, a, 1, 0);
  }

  /** A multiple of `a` is a multiple of every divisor of `a`. */
  lemma AlignedDivisor(x: int, a: nat, d: nat)
    requires Aligned(x, a) && Aligned(a, d)
    ensures Aligned(x, d)
  {
    var q, p := x / a, a / d;
    assert x == a * q && a == d * p;
    assert x == d * (p * q);
    DivUnique(x, d, p * q, 0);
  }

  /** Two multiples of `a` that differ by less than `a` are equal. */
  lemma AlignedGap(x: int, y: int, a: nat)
    requires Aligned(x, a) && Aligned(y, a) && x < y
    ensures x + a <= y
  {
    var p, q := x / a, y / a;
    assert x == a * p && y == a * q;
    assert y - x == a * (q - p);
    MultipleGrows(a, q - p);
  }

  /** FLOOR_ALIGN: the greatest multiple of `a` not above `v`. */
  function FloorAlign(v: nat, a: nat): (r: nat)
    requires a > 0
    ensures r <= v < r + a && Aligned(r, a)
  {
    FloorIsAligned(v, a);
    v - v % a
  }

  lemma FloorIsAligned(v: nat, a: nat)
    requires a > 0
    ensures v % a <= v && Aligned(v - v % a, a)
  {
    assert v == a * (v / a) + v % a;
    assert a * (v / a) >= 0;
    DivUnique(v - v % a, a, v / a, 0);
  }

  /** The floor is the only multiple of `a` in the window below `v`. */
  lemma FloorUnique(v: nat, a: nat, r: nat)
    requires Aligned(r, a) && r <= v < r + a
    ensures FloorAlign(v, a) == r
  {
    var f := FloorAlign(v, a);
    if f < r {
      AlignedGap(f, r, a);
    } else if r < f {
      AlignedGap(r, f, a);
    }
  }

  /** Dividing and multiplying back rounds down. */
  lemma DivMul(v: nat, a: nat)
    requires a > 0
    ensures (v / a) * a == FloorAlign(v, a)
  {
    assert v == a * (v / a) + v % a;
  }

  /** Clears the low `k` bits, one at a time. */
  function DropLow(v: nat, k: nat): nat
    decreases k, v
  {
    if k == 0 then v else 2 * DropLow(v / 2, k - 1)
  }

  lemma {:induction false} DropLowIsFloor(v: nat, k: nat)
    ensures DropLow(v, k) == FloorAlign(v, Pow2(k))
    decreases k
  {
    if k == 0 {
      DivUnique(v, 1, v, 0);
    } else {
      DropLowIsFloor(v / 2, k - 1);
      HalfFloor(v, k);
    }
  }

  lemma {:induction false} DropLowBits(v: nat, k: nat, width: nat, i: nat)
    requires i < width
    ensures BitsOf(DropLow(v, k), width)[i] <==> BitsOf(v, width)[i] && i >= k
    decreases width
  {
    if k > 0 && i > 0 {
      DropLowBits(v / 2, k - 1, width - 1, i - 1);
    }
  }

  /** On a power of two the mask `v & ~(a - 1)` of the source computes the floor. */
  lemma MaskIsFloor(v: nat, k: nat)
    ensures And(BitsOf(v, WIDTH), Not(BitsOf(Pow2(k) - 1, WIDTH))) == BitsOf(FloorAlign(v, Pow2(k)), WIDTH)
  {
    forall i: nat | i < WIDTH
      ensures BitsOf(FloorAlign(v, Pow2(k)), WIDTH)[i] <==> BitsOf(v, WIDTH)[i] && !BitsOf(Pow2(k) - 1, WIDTH)[i]
    {
      DropLowIsFloor(v, k);
      DropLowBits(v, k, WIDTH, i);
      OnesBits(k, WIDTH, i);
    }
  }

  /** Dropping the low `k` bits of `v` is twice dropping the low `k - 1` bits of `v / 2`. */
  lemma HalfFloor(v: nat, k: nat)
    requires k > 0
    ensures v % Pow2(k) <= v && (v / 2) % Pow2(k - 1) <= v / 2
    ensures v - v % Pow2(k) == 2 * (v / 2 - (v / 2) % Pow2(k - 1))
  {
    var w, h := v / 2, Pow2(k - 1);
    FloorIsAligned(w, h);
    var g := (w - w % h) / h;
    assert w - w % h == h * g;
    assert 2 * (h * g) == (2 * h) * g;
    DivUnique(v, 2 * h, g, 2 * (w % h) + v % 2);
  }
}
