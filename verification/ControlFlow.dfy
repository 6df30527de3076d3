/** Fault-injection hardening (src/lib/fih): the control-flow counter over whole call trees, kept as a value and
    its masked copy. */
module ControlFlow {
  import opened SlotMask

  // ---- Masked integers -------------------------------------------------------------------------

  const MASK: nat := 0xA5C3_5A3C
  const UINT32_LIMIT: nat := 0x1_0000_0000
  const INT32_MAX: nat := 0x7FFF_FFFF

  /** Exclusive or of the low `k` bits. */
  function Xor(a: nat, b: nat, k: nat): (r: nat)
    ensures r < Pow2(k)
    decreases k, a
  {
    if k == 0 then 0 else (a + b) % 2 + 2 * Xor(a / 2, b / 2, k - 1)
  }

  lemma {:induction false} XorTwice(a: nat, b: nat, k: nat)
    requires a < Pow2(k)
    ensures Xor(Xor(a, b, k), b, k) == a
    decreases k
  {
    if k > 0 {
      XorTwice(a / 2, b / 2, k - 1);
      var r := Xor(a / 2, b / 2, k - 1);
      LowBit(a, b, r);
      var x := (a + b) % 2 + 2 * r;
      assert Xor(x, b, k) == (x + b) % 2 + 2 * Xor(x / 2, b / 2, k - 1);
    }
  }

  /** Bit by bit it is the exclusive or. */
  lemma {:induction false} XorBits(a: nat, b: nat, k: nat, i: nat)
    requires i < k
    ensures BitsOf(Xor(a, b, k), k)[i] <==> BitsOf(a, k)[i] != BitsOf(b, k)[i]
    decreases k
  {
    var r := Xor(a / 2, b / 2, k - 1);
    var x := (a + b) % 2 + 2 * r;
    LowBit(a, b, r);
    assert x % 2 == (a + b) % 2;
    if i > 0 {
      XorBits(a / 2, b / 2, k - 1, i - 1);
    }
  }

  /** The lowest bit of a sum is the exclusive or of the lowest bits. */
  lemma LowBit(a: nat, b: nat, r: nat)
    ensures var x := (a + b) % 2 + 2 * r;
            x / 2 == r && (x + b) % 2 == a % 2 && a == a % 2 + 2 * (a / 2)
  {
    var p, q := a / 2, b / 2;
    assert a == 2 * p + a % 2 && b == 2 * q + b % 2;
  }

  /** A 32-bit pattern. */
  type Pattern = n: nat | n < UINT32_LIMIT

  /** `fih_int`: the value and its masked copy. */
  datatype FihInt = FihInt(val: Pattern, msk: Pattern)

  predicate Intact(x: FihInt) {
    x.val == Xor(x.msk, MASK, WIDTH)
  }

  function Encode(v: Pattern): FihInt {
    Pow2Width(WIDTH);
    FihInt(v, Xor(v, MASK, WIDTH))
  }

  /** Encoding keeps the value and passes the check. */
  lemma EncodeIntact(v: Pattern)
    ensures Intact(Encode(v))
  {
    Pow2Width(WIDTH);
    XorTwice(v, MASK, WIDTH);
  }

  /** Changing either half alone, to any other pattern, is noticed. */
  lemma TamperingNoticed(x: FihInt, other: Pattern)
    requires Intact(x)
    ensures other != x.val ==> !Intact(x.(val := other))
    ensures other != x.msk ==> !Intact(x.(msk := other))
  {
    Pow2Width(WIDTH);
    XorTwice(x.msk, MASK, WIDTH);
    XorTwice(other, MASK, WIDTH);
  }

  /** Intact integers with equal values have equal masked copies. */
  lemma IntactEqual(x: FihInt, y: FihInt)
    requires Intact(x) && Intact(y) && x.val == y.val
    ensures x == y
  {
    Pow2Width(WIDTH);
    XorTwice(x.msk, MASK, WIDTH);
    XorTwice(y.msk, MASK, WIDTH);
  }

  // ---- Call trees ------------------------------------------------------------------------------

  /** What a function does: FIH_CALLs and critical steps. An item that a fault has removed is not `done`: the
      called function is not entered, the step is not counted. */
  datatype Item = Call(done: bool, f: Fun) | Step(done: bool)

  datatype Items = Nil | Cons(head: Item, tail: Items)

  /** The step count is an 8-bit number. */
  type Count = n: int | 0 <= n < 256

  /** FIH_CFI_STEP_INIT with the number of declared steps, a body, perhaps FIH_CFI_STEP_ERR_RESET, and FIH_RET. */
  datatype Fun = Fun(steps: Count, body: Items, reset: bool, ret: bool)

  datatype Reason = PostCall | Negative | Overflow | BelowOne

  /** The counter afterwards, or a panic: why, and in which call, as a path of positions from the outside. */
  datatype Outcome = Ok(ctr: int) | Panic(reason: Reason, path: seq<nat>)

  function Increment(c: int, n: nat): Outcome {
    if c < 0 then Panic(Negative, [])
    else if c + n > INT32_MAX then Panic(Overflow, [])
    else Ok(c + n)
  }

  function Decrement(c: int): Outcome {
    if c < 1 then Panic(BelowOne, []) else Ok(c - 1)
  }

  function RunFun(c: int, f: Fun): Outcome
    decreases f, 0
  {
    var entered := Increment(c, f.steps);
    if entered.Panic? then entered
    else
      var left := RunItems(entered.ctr, f.body, 0);
      if left.Panic? then left
      else
        var c1 := if f.reset then c else left.ctr;
        if f.ret then Decrement(c1) else Ok(c1)
  }

  function RunItems(c: int, items: Items, k: nat): Outcome
    decreases items, 1
  {
    match items
    case Nil => Ok(c)
    case Cons(head, tail) =>
      var r := RunItem(c, head, k);
      if r.Panic? then r else RunItems(r.ctr, tail, k + 1)
  }

  /** FIH_CALL saves the counter, counts the call and compares afterwards. */
  function RunItem(c: int, item: Item, k: nat): Outcome
    decreases item, 0
  {
    match item
    case Step(done) => if done then Decrement(c) else Ok(c)
    case Call(done, f) =>
      var counted := Increment(c, 1);
      if counted.Panic? then counted.(path := [k])
      else
        var r := if done then RunFun(counted.ctr, f) else counted;
        if r.Panic? then r.(path := [k] + r.path)
        else if r.ctr != c then Panic(PostCall, [k])
        else Ok(c)
  }

  // ---- What a sound tree does ------------------------------------------------------------------

  function StepsDone(items: Items): nat {
    match items
    case Nil => 0
    case Cons(Step(true), tail) => 1 + StepsDone(tail)
    case Cons(_, tail) => StepsDone(tail)
  }

  /** Every call is entered and sound; steps that were not counted do not matter here. */
  predicate CallsSound(items: Items) {
    match items
    case Nil => true
    case Cons(Call(done, f), tail) => done && Sound(f) && CallsSound(tail)
    case Cons(Step(_), tail) => CallsSound(tail)
  }

  /** One FIH_RET, and all declared steps or the error reset. */
  predicate Sound(f: Fun) {
    && f.ret && CallsSound(f.body)
    && (if f.reset then StepsDone(f.body) <= f.steps else StepsDone(f.body) == f.steps)
  }

  function Max(a: nat, b: nat): nat { if a < b then b else a }

  /** How far the counter rises at most above its value on entry. */
  function Rise(f: Fun): nat
    decreases f, 0
  {
    f.steps + RiseItems(f.body)
  }

  function RiseItems(items: Items): nat
    decreases items, 1
  {
    match items
    case Nil => 0
    case Cons(Step(done), tail) =>
      var r := RiseItems(tail);
      if done && r > 0 then r - 1 else r
    case Cons(Call(_, f), tail) => Max(1 + Rise(f), RiseItems(tail))
  }

  /** A sound function takes back exactly the count of its call, however deep the tree below it. */
  lemma {:induction false} SoundFunReturns(c: int, f: Fun)
    requires Sound(f) && 1 <= c && c + Rise(f) <= INT32_MAX
    ensures RunFun(c, f) == Ok(c - 1)
    decreases f, 0
  {
    SoundItemsCount(c + f.steps, f.body, 0);
  }

  lemma {:induction false} SoundItemsCount(c: int, items: Items, k: nat)
    requires CallsSound(items) && StepsDone(items) < c && c + RiseItems(items) <= INT32_MAX
    ensures RunItems(c, items, k) == Ok(c - StepsDone(items))
    decreases items, 1
  {
    match items
    case Nil =>
    case Cons(Step(done), tail) =>
      SoundItemsCount(if done then c - 1 else c, tail, k + 1);
    case Cons(Call(done, f), tail) =>
      SoundFunReturns(c + 1, f);
      SoundItemsCount(c, tail, k + 1);
  }

  /** FIH_CALL of a sound function: no panic, and the counter is as before. */
  lemma SoundCall(c: int, f: Fun, k: nat)
    requires Sound(f) && 0 <= c && c + 1 + Rise(f) <= INT32_MAX
    ensures RunItem(c, Call(true, f), k) == Ok(c)
  {
    SoundFunReturns(c + 1, f);
  }

  /** Without room for its tree a sound call panics: the counter would leave its type. */
  lemma SoundCallOverflows(c: int, f: Fun, k: nat)
    requires Sound(f) && 0 <= c <= INT32_MAX && c + 1 + Rise(f) > INT32_MAX
    ensures RunItem(c, Call(true, f), k).Panic? && RunItem(c, Call(true, f), k).reason.Overflow?
  {
    if c + 1 <= INT32_MAX {
      SoundFunOverflows(c + 1, f);
    }
  }

  lemma {:induction false} SoundFunOverflows(c: int, f: Fun)
    requires Sound(f) && 1 <= c <= INT32_MAX && c + Rise(f) > INT32_MAX
    ensures RunFun(c, f).Panic? && RunFun(c, f).reason.Overflow?
    decreases f, 0
  {
    if c + f.steps <= INT32_MAX {
      SoundItemsOverflow(c + f.steps, f.body, 0);
    }
  }

  lemma {:induction false} SoundItemsOverflow(c: int, items: Items, k: nat)
    requires CallsSound(items) && StepsDone(items) < c <= INT32_MAX && c + RiseItems(items) > INT32_MAX
    ensures RunItems(c, items, k).Panic? && RunItems(c, items, k).reason.Overflow?
    decreases items, 1
  {
    match items
    case Cons(Step(done), tail) =>
      SoundItemsOverflow(if done then c - 1 else c, tail, k + 1);
    case Cons(Call(done, f), tail) =>
      if c + 1 + Rise(f) > INT32_MAX {
        if c + 1 <= INT32_MAX {
          SoundFunOverflows(c + 1, f);
        }
      } else {
        SoundFunReturns(c + 1, f);
        SoundItemsOverflow(c, tail, k + 1);
      }
  }

  // ---- What one fault does ---------------------------------------------------------------------

  /** The call is hit itself: its function is not entered, or loses its FIH_RET and any number of steps, or
      loses one or more steps without an error reset. Everything below it is sound. */
  predicate HitHere(item: Item) {
    && item.Call?
    && (item.done ==>
          && CallsSound(item.f.body) && StepsDone(item.f.body) <= item.f.steps
          && (item.f.ret ==> !item.f.reset && StepsDone(item.f.body) < item.f.steps))
  }

  /** The fault lies in the call at the end of `path`, and everything that runs before it is sound. */
  predicate HitAt(item: Item, path: seq<nat>)
    decreases item, 0, |path|
  {
    item.Call? && if path == [] then HitHere(item) else item.done && HitIn(item.f.body, 0, path, item.f.steps)
  }

  predicate HitIn(items: Items, k: nat, path: seq<nat>, steps: nat)
    requires path != []
    decreases items, 1, |path|
  {
    match items
    case Nil => false
    case Cons(head, tail) =>
      if k == path[0] then HitAt(head, path[1..])
      else
        match head
        case Step(done) => (done ==> steps > 0) && HitIn(tail, k + 1, path, if done then steps - 1 else steps)
        case Call(done, f) => done && Sound(f) && HitIn(tail, k + 1, path, steps)
  }

  /** An omitted body, omitted steps or an omitted return: the check behind the innermost call around it panics,
      wherever in the tree that is. */
  lemma {:induction false} FaultCaught(c: int, item: Item, k: nat, path: seq<nat>)
    requires HitAt(item, path) && 0 <= c && c + 1 + Rise(item.f) <= INT32_MAX
    ensures RunItem(c, item, k) == Panic(PostCall, [k] + path)
    decreases item, 0
  {
    if path == [] {
      if item.done {
        SoundItemsCount(c + 1 + item.f.steps, item.f.body, 0);
      }
    } else {
      FaultCaughtIn(c + 1 + item.f.steps, item.f.body, 0, path, item.f.steps);
    }
  }

  lemma {:induction false} FaultCaughtIn(c: int, items: Items, k: nat, path: seq<nat>, steps: nat)
    requires path != [] && HitIn(items, k, path, steps) && steps < c && c + RiseItems(items) <= INT32_MAX
    ensures RunItems(c, items, k) == Panic(PostCall, path)
    decreases items, 1
  {
    match items
    case Cons(head, tail) =>
      if k == path[0] {
        FaultCaught(c, head, k, path[1..]);
        assert [k] + path[1..] == path;
      } else {
        match head
        case Step(done) => FaultCaughtIn(if done then c - 1 else c, tail, k + 1, path, if done then steps - 1 else steps);
        case Call(done, f) =>
          SoundFunReturns(c + 1, f);
          FaultCaughtIn(c, tail, k + 1, path, steps);
      }
  }

  // ---- The counter in memory -------------------------------------------------------------------

  class Cfi {
    var ctr: FihInt

    constructor ()
      ensures Good() && ctr.val == 0
    {
      ctr := Encode(0);
      new;
      EncodeIntact(0);
    }

    /** The counter is intact and not negative. */
    ghost predicate Good()
      reads this
    {
      Intact(ctr) && ctr.val <= INT32_MAX
    }

    /** `fih_cfi_get_and_increment`; false stands for FIH_PANIC: a counter that has been tampered with, a
        negative one, or one without room. A sum beyond the 32-bit range comes out negative, and so smaller. */
    method GetAndIncrement(cnt: Count) returns (ok: bool, saved: FihInt)
      modifies this
      ensures ok <==> Intact(old(ctr)) && 0 <= Signed(old(ctr.val)) && Signed(old(ctr.val)) + cnt <= INT32_MAX
      ensures ok ==> Good() && saved == old(ctr) && ctr.val == old(ctr.val) + cnt
      ensures !ok ==> ctr == old(ctr)
    {
      saved := ctr;
      if !Intact(ctr) || Signed(ctr.val) < 0 {
        return false, saved;
      }
      var sum := (ctr.val + cnt) % UINT32_LIMIT;
      assert sum == ctr.val + cnt && (Signed(ctr.val) > Signed(sum) <==> sum > INT32_MAX);
      if Signed(ctr.val) > Signed(sum) {
        return false, saved;
      }
      ctr := Encode(sum);
      EncodeIntact(sum);
      ok := Intact(ctr) && Intact(saved);
    }

    /** `fih_cfi_decrement`. */
    method DecrementCounter() returns (ok: bool)
      modifies this
      ensures ok <==> Intact(old(ctr)) && 1 <= Signed(old(ctr.val))
      ensures ok ==> Good() && ctr.val == old(ctr.val) - 1
      ensures !ok ==> ctr == old(ctr)
    {
      if !Intact(ctr) || Signed(ctr.val) < 1 {
        return false;
      }
      ctr := Encode(ctr.val - 1);
      EncodeIntact(ctr.val);
      ok := Intact(ctr);
    }

    /** `fih_cfi_validate`: passes exactly if both are intact and equal. */
    method ValidateCounter(saved: FihInt) returns (ok: bool)
      ensures ok <==> Intact(saved) && Intact(ctr) && saved == ctr
    {
      ok := Intact(saved) && Intact(ctr) && saved.val == ctr.val && saved.msk == ctr.msk
            && saved.val == Xor(ctr.msk, MASK, WIDTH);
    }

    /** A function with FIH_CFI_STEP_INIT, its body, perhaps FIH_CFI_STEP_ERR_RESET, and FIH_RET. */
    method ExecFun(f: Fun) returns (ok: bool)
      requires Good()
      modifies this
      ensures ok == RunFun(old(ctr.val), f).Ok?
      ensures ok ==> Good() && ctr.val == RunFun(old(ctr.val), f).ctr
      decreases f, 0
    {
      var saved;
      ok, saved := GetAndIncrement(f.steps);
      if !ok {
        return;
      }
      ok := ExecItems(f.body, 0);
      if !ok {
        return;
      }
      if f.reset {
        ctr := saved;
      }
      if f.ret {
        ok := DecrementCounter();
      }
    }

    method ExecItems(items: Items, ghost k: nat) returns (ok: bool)
      requires Good()
      modifies this
      ensures ok == RunItems(old(ctr.val), items, k).Ok?
      ensures ok ==> Good() && ctr.val == RunItems(old(ctr.val), items, k).ctr
      decreases items, 1
    {
      match items
      case Nil => ok := true;
      case Cons(head, tail) =>
        ok := ExecItem(head, k);
        if ok {
          ok := ExecItems(tail, k + 1);
        }
    }

    /** FIH_CALL, or a critical step with its FIH_CFI_STEP_DECREMENT. */
    method ExecItem(item: Item, ghost k: nat) returns (ok: bool)
      requires Good()
      modifies this
      ensures ok == RunItem(old(ctr.val), item, k).Ok?
      ensures ok ==> Good() && ctr.val == RunItem(old(ctr.val), item, k).ctr
      decreases item, 0
    {
      ok := true;
      match item
      case Step(done) =>
        if done {
          ok := DecrementCounter();
        }
      case Call(done, f) =>
        var saved;
        ok, saved := GetAndIncrement(1);
        if !ok {
          return;
        }
        if done {
          ok := ExecFun(f);
          if !ok {
            return;
          }
        }
        if Intact(ctr) && saved.val == ctr.val {
          IntactEqual(saved, ctr);
        }
        ok := ValidateCounter(saved);
    }
  }

  /** A 32-bit pattern read as a signed number. */
  function Signed(v: nat): int {
    if v > INT32_MAX then v - UINT32_LIMIT else v
  }
}
