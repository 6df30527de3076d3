/** Bitmasks over mailbox slots: `mailbox_queue_status_t`, a 32-bit word.

    A word is its 32 bits, least significant first. Every mask operation of the queue is tied
    here to an operation on the set of slots whose bit is one, so that the protocol can be
    reasoned about with sets. */
module SlotMask {

  const WIDTH := 32

  type Word = w: seq<bool> | |w| == WIDTH witness seq(WIDTH, _ => false)

  function Zero(): Word {
    seq(WIDTH, _ => false)
  }

  /** `1UL << i` */
  function Unit(i: nat): Word
    requires i < WIDTH
  {
    seq(WIDTH, j => j == i)
  }

  function Or(a: Word, b: Word): Word {
    seq(WIDTH, j requires 0 <= j < WIDTH => a[j] || b[j])
  }

  function And(a: Word, b: Word): Word {
    seq(WIDTH, j requires 0 <= j < WIDTH => a[j] && b[j])
  }

  function Not(a: Word): Word {
    seq(WIDTH, j requires 0 <= j < WIDTH => !a[j])
  }

  /** The slots named by a mask. */
  function Slots(w: Word): (s: set<nat>) {
    set i: nat | i < WIDTH && w[i]
  }

  /** The slots of a queue of `n` slots. */
  function Below(n: nat): (s: set<nat>) {
    set i: nat {:trigger i in Below(n)} | i < n
  }

  /** `m &= ~(1 << i)` removes exactly slot `i`. */
  lemma ClearSlot(m: Word, i: nat)
    requires i < WIDTH
    ensures Slots(And(m, Not(Unit(i)))) == Slots(m) - {i}
  {
  }

  /** `a |= b` joins the two slot sets. */
  lemma JoinSlots(a: Word, b: Word)
    ensures Slots(Or(a, b)) == Slots(a) + Slots(b)
  {
  }

  /** `m |= 1 << i` adds exactly slot `i`. */
  lemma AddSlot(m: Word, i: nat)
    requires i < WIDTH
    ensures Slots(Or(m, Unit(i))) == Slots(m) + {i}
  {
  }

  /** The test `m & (1 << i)` reads slot `i`. */
  lemma TestSlot(m: Word, i: nat)
    requires i < WIDTH
    ensures And(m, Unit(i)) != Zero() <==> i in Slots(m)
  {
    if m[i] {
      assert And(m, Unit(i))[i] != Zero()[i];
    } else {
      assert And(m, Unit(i)) == Zero();
    }
  }

  /** The word is zero exactly when it names no slot. */
  lemma ZeroIsEmpty(m: Word)
    ensures m == Zero() <==> Slots(m) == {}
  {
    if Slots(m) == {} {
      forall i | 0 <= i < WIDTH ensures !m[i] {
        assert i !in Slots(m);
      }
      assert m == Zero();
    }
  }

  // ---- The number a word stands for ---------------------------------------------------------

  function Pow2(k: nat): (p: nat)
    ensures p > 0
  {
    if k == 0 then 1 else 2 * Pow2(k - 1)
  }

  /** The low `k` bits of a number. */
  function BitsOf(x: nat, k: nat): (b: seq<bool>)
    ensures |b| == k
    decreases k, x
  {
    if k == 0 then [] else [x % 2 == 1] + BitsOf(x / 2, k - 1)
  }

  /** The initial value of `empty_slots`: the two summands the code adds up, each of which fits
      a 32-bit shift even when the queue has 32 slots. */
  function AllSlots(n: nat): Word
    requires 1 <= n <= WIDTH
  {
    BitsOf((Pow2(n - 1) - 1) + Pow2(n - 1), WIDTH)
  }

  lemma {:induction false} OnesBits(n: nat, k: nat, i: nat)
    requires i < k
    ensures BitsOf(Pow2(n) - 1, k)[i] <==> i < n
    decreases k
  {
    if n == 0 {
      if i > 0 {
        OnesBits(0, k - 1, i - 1);
      }
    } else if i > 0 {
      assert (Pow2(n) - 1) / 2 == Pow2(n - 1) - 1;
      OnesBits(n - 1, k - 1, i - 1);
    }
  }

  lemma {:induction false} Pow2Monotone(a: nat, b: nat)
    requires a <= b
    ensures Pow2(a) <= Pow2(b)
    decreases b
  {
    if a < b {
      Pow2Monotone(a, b - 1);
    }
  }

  lemma {:induction false} Pow2Sum(a: nat, b: nat)
    ensures Pow2(a + b) == Pow2(a) * Pow2(b)
    decreases a
  {
    if a > 0 {
      Pow2Sum(a - 1, b);
    }
  }

  lemma Pow2Width(k: nat)
    requires k == WIDTH
    ensures Pow2(k) == 0x1_0000_0000
  {
    assert Pow2(8) == 256;
    Pow2Sum(8, 8);
    Pow2Sum(16, 16);
  }

  /** The initial mask names exactly the slots of the queue, for every size up to 32. */
  lemma AllSlotsIsBelow(n: nat)
    requires 1 <= n <= WIDTH
    ensures Slots(AllSlots(n)) == Below(n)
  {
    forall i: nat | i < WIDTH
      ensures AllSlots(n)[i] <==> i < n
    {
      AllSlotsBit(n, WIDTH, i);
    }
  }

  /** The test that every slot is empty. */
  lemma CoversAllSlots(w: Word, n: nat)
    requires 1 <= n <= WIDTH
    ensures And(w, AllSlots(n)) == AllSlots(n) <==> Below(n) <= Slots(w)
  {
    AllSlotsIsBelow(n);
    var all := AllSlots(n);
    assert forall i: nat | i < WIDTH :: all[i] <==> i in Below(n);
    if And(w, all) == all {
      forall i | i in Below(n)
        ensures i in Slots(w)
      {
        assert And(w, all)[i];
      }
    }
    if Below(n) <= Slots(w) {
      assert forall i: nat | i < WIDTH && all[i] :: i in Slots(w);
      assert And(w, all) == all;
    }
  }

  lemma AllSlotsBit(n: nat, width: nat, i: nat)
    requires 1 <= n && i < width
    ensures BitsOf((Pow2(n - 1) - 1) + Pow2(n - 1), width)[i] <==> i < n
  {
    assert (Pow2(n - 1) - 1) + Pow2(n - 1) == Pow2(n) - 1;
    OnesBits(n, width, i);
  }

  /** Neither summand nor their sum leaves the word, whatever its width. */
  lemma AllSlotsFits(n: nat, width: nat)
    requires 1 <= n <= width
    ensures Pow2(n - 1) < Pow2(width)
    ensures (Pow2(n - 1) - 1) + Pow2(n - 1) < Pow2(width)
  {
    Pow2Monotone(n, width);
  }
}
