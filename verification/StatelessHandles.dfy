/** Static handles of stateless services (src/tools/tfm_parse_manifest_list.py, `process_stateless_services`): 32
    slots, some asked for by number, the rest handed out in order, and the encoding of slot and version. */
module StatelessHandles {
  import opened SlotMask

  const LIMIT: nat := 32

  /** The `stateless_handle` of a manifest: absent, "auto", a number, or something else. */
  datatype Setting = Unset | Auto | Fixed(h: int) | Other

  datatype Service = Service(setting: Setting, version: int)

  datatype Option<T> = None | Some(value: T)

  /** The services and their handle values by slot, or the reason for the exception. Services go by their
      number. */
  datatype Outcome = NoServices | TooMany | InvalidSetting | DuplicatedSetting | Listed(slots: seq<Option<nat>>, values: seq<Word>)

  predicate IsAuto(s: Service) {
    s.setting.Unset? || s.setting.Auto?
  }

  ghost predicate InRange(s: Service) {
    IsAuto(s) || (s.setting.Fixed? && 1 <= s.setting.h <= LIMIT)
  }

  /** The manifests the tool accepts. */
  ghost predicate Acceptable(services: seq<Service>) {
    && |services| <= LIMIT
    && (forall k | 0 <= k < |services| :: InRange(services[k]))
    && (forall k, l | 0 <= k < l < |services| && services[k].setting.Fixed? :: services[l].setting != services[k].setting)
  }

  /** Two services ask for the same number. */
  ghost predicate Duplicated(services: seq<Service>) {
    exists k, l :: 0 <= k < l < |services| && services[k].setting.Fixed? && services[l].setting == services[k].setting
  }

  ghost predicate Contains(slots: seq<Option<nat>>, k: nat) {
    exists i :: 0 <= i < |slots| && slots[i] == Some(k)
  }

  /** Every service has exactly one slot, a numbered one the slot of its number, and the others fill the
      remaining slots from the first one on, in their order, leaving no gap. */
  ghost predicate Placed(services: seq<Service>, slots: seq<Option<nat>>) {
    && |slots| == LIMIT
    && (forall i | 0 <= i < LIMIT && slots[i].Some? :: slots[i].value < |services|)
    && (forall i, j | 0 <= i < j < LIMIT && slots[i].Some? :: slots[j] != slots[i])
    && (forall k: nat | k < |services| :: Contains(slots, k))
    && (forall i | 0 <= i < LIMIT && slots[i].Some? && services[slots[i].value].setting.Fixed? ::
          services[slots[i].value].setting.h == i + 1)
    && (forall i, j | 0 <= i < j < LIMIT && AutoAt(services, slots, j) :: slots[i].Some?)
    && (forall i, j | 0 <= i < j < LIMIT && AutoAt(services, slots, i) && AutoAt(services, slots, j) ::
          slots[i].value < slots[j].value)
  }

  ghost predicate AutoAt(services: seq<Service>, slots: seq<Option<nat>>, i: nat) {
    i < |slots| && slots[i].Some? && slots[i].value < |services| && IsAuto(services[slots[i].value])
  }

  // ---- First pass: numbered services ------------------------------------------------------------

  function Free(slots: seq<Option<nat>>): (n: nat)
    ensures n <= |slots|
  {
    if slots == [] then 0 else Free(slots[..|slots| - 1]) + if slots[|slots| - 1].None? then 1 else 0
  }

  lemma {:induction false} AllFree(slots: seq<Option<nat>>)
    requires forall i | 0 <= i < |slots| :: slots[i].None?
    ensures Free(slots) == |slots|
    decreases |slots|
  {
    if slots != [] {
      AllFree(slots[..|slots| - 1]);
    }
  }

  lemma {:induction false} TakeSlot(slots: seq<Option<nat>>, i: nat, k: nat)
    requires i < |slots| && slots[i].None?
    ensures Free(slots[i := Some(k)]) == Free(slots) - 1
    decreases |slots|
  {
    var n := |slots| - 1;
    if i < n {
      TakeSlot(slots[..n], i, k);
      assert slots[i := Some(k)][..n] == slots[..n][i := Some(k)];
    } else {
      assert slots[i := Some(k)][..n] == slots[..n];
    }
  }

  /** After `m` services: the numbered ones have their slots, the others wait in order. */
  ghost predicate Sorted(services: seq<Service>, m: nat, slots: seq<Option<nat>>, autos: seq<nat>) {
    && m <= |services| && |slots| == LIMIT
    && (forall i | 0 <= i < LIMIT && slots[i].Some? :: slots[i].value < m && services[slots[i].value].setting == Fixed(i + 1))
    && (forall k: nat | k < m && services[k].setting.Fixed? ::
          InRange(services[k]) && slots[services[k].setting.h - 1] == Some(k))
    && (forall k: nat | k < m :: !services[k].setting.Other?)
    && (forall t | 0 <= t < |autos| :: autos[t] < m && IsAuto(services[autos[t]]))
    && (forall t, u | 0 <= t < u < |autos| :: autos[t] < autos[u])
    && (forall k: nat | k < m && IsAuto(services[k]) :: k in autos)
    && Free(slots) == LIMIT - (m - |autos|)
  }

  lemma SortWaiting(services: seq<Service>, m: nat, slots: seq<Option<nat>>, autos: seq<nat>)
    requires m < |services| && Sorted(services, m, slots, autos) && IsAuto(services[m])
    ensures Sorted(services, m + 1, slots, autos + [m])
  {
    forall k: nat | k < m + 1 && IsAuto(services[k])
      ensures k in autos + [m]
    {
      assert k < m ==> k in autos;
    }
  }

  lemma SortNumbered(services: seq<Service>, m: nat, slots: seq<Option<nat>>, autos: seq<nat>)
    requires m < |services| && Sorted(services, m, slots, autos)
    requires services[m].setting.Fixed? && 1 <= services[m].setting.h <= LIMIT && slots[services[m].setting.h - 1].None?
    ensures Sorted(services, m + 1, slots[services[m].setting.h - 1 := Some(m)], autos)
  {
    TakeSlot(slots, services[m].setting.h - 1, m);
  }

  lemma DuplicateRefused(services: seq<Service>, m: nat, slots: seq<Option<nat>>, autos: seq<nat>)
    requires m < |services| && Sorted(services, m, slots, autos)
    requires services[m].setting.Fixed? && 1 <= services[m].setting.h <= LIMIT && slots[services[m].setting.h - 1].Some?
    ensures !Acceptable(services) && Duplicated(services)
  {
    var k := slots[services[m].setting.h - 1].value;
    assert services[k].setting == services[m].setting;
  }

  method SortServices(services: seq<Service>) returns (ok: bool, r: Outcome, slots: seq<Option<nat>>, autos: seq<nat>)
    requires |services| <= LIMIT
    ensures ok <==> Acceptable(services)
    ensures ok ==> Sorted(services, |services|, slots, autos)
    ensures !ok ==> r.InvalidSetting? || r.DuplicatedSetting?
    ensures !ok && r.InvalidSetting? ==> exists k | 0 <= k < |services| :: !InRange(services[k])
    ensures !ok && r.DuplicatedSetting? ==> Duplicated(services)
  {
    autos := [];
    slots := seq(LIMIT, _ => None);
    AllFree(slots);
    var k := 0;
    while k < |services|
      invariant k <= |services| && Sorted(services, k, slots, autos)
    {
      match services[k].setting {
      case Unset =>
        SortWaiting(services, k, slots, autos);
        autos := autos + [k];
      case Auto =>
        SortWaiting(services, k, slots, autos);
        autos := autos + [k];
      case Fixed(h) =>
        if h < 1 || h > LIMIT {
          assert !InRange(services[k]);
          return false, InvalidSetting, slots, autos;
        }
        if slots[h - 1].Some? {
          DuplicateRefused(services, k, slots, autos);
          return false, DuplicatedSetting, slots, autos;
        }
        SortNumbered(services, k, slots, autos);
        slots := slots[h - 1 := Some(k)];
      case Other =>
        assert !InRange(services[k]);
        return false, InvalidSetting, slots, autos;
      }
      k := k + 1;
    }
    SortedIsAcceptable(services, slots, autos);
    ok, r := true, NoServices;
  }

  lemma SortedIsAcceptable(services: seq<Service>, slots: seq<Option<nat>>, autos: seq<nat>)
    requires |services| <= LIMIT && Sorted(services, |services|, slots, autos)
    ensures Acceptable(services)
  {
    forall k | 0 <= k < |services|
      ensures InRange(services[k])
    {
      assert !services[k].setting.Other?;
    }
    forall k, l | 0 <= k < l < |services| && services[k].setting.Fixed?
      ensures services[l].setting != services[k].setting
    {
      assert slots[services[k].setting.h - 1] == Some(k);
      if services[l].setting.Fixed? {
        assert slots[services[l].setting.h - 1] == Some(l);
      }
    }
  }

  // ---- Second pass: the remaining slots ---------------------------------------------------------

  /** The content of slot `j` in the end: free slots take the waiting services one after another. */
  function Final(slots: seq<Option<nat>>, autos: seq<nat>, j: nat): Option<nat>
    requires j < |slots|
  {
    if slots[j].Some? then slots[j]
    else if Free(slots[..j]) < |autos| then Some(autos[Free(slots[..j])])
    else None
  }

  method FillSlots(services: seq<Service>, slots: seq<Option<nat>>, autos: seq<nat>)
    returns (out: seq<Option<nat>>, values: seq<Word>)
    requires |slots| == LIMIT && forall j | 0 <= j < LIMIT :: Known(services, Final(slots, autos, j))
    ensures |out| == LIMIT && Encoded(services, out, values)
    ensures forall j | 0 <= j < LIMIT :: out[j] == Final(slots, autos, j)
  {
    out, values := slots, [];
    var waiting := autos;
    var i := 0;
    while i < |slots|
      invariant i <= |slots| == |out| == LIMIT && |values| == i
      invariant forall j | 0 <= j < i :: IsValue(services, Final(slots, autos, j), j, values[j])
      invariant waiting == if Free(slots[..i]) < |autos| then autos[Free(slots[..i])..] else []
      invariant forall j | 0 <= j < |slots| :: out[j] == if j < i then Final(slots, autos, j) else slots[j]
    {
      var service := out[i];
      if service.None? && |waiting| > 0 {
        service := Some(waiting[0]);
        waiting := waiting[1..];
      }
      out := out[i := service];
      assert slots[..i + 1][..i] == slots[..i];
      assert service == Final(slots, autos, i) && Known(services, service);
      var value := SlotValue(services, service, i);
      values := values + [value];
      i := i + 1;
    }
  }

  /** Slot number, indicator and version, joined one after another; the offsets are those of version and
      indicator. */
  function HandleWord(i: nat, version: int, k8: nat, k30: nat): Word {
    Or(Or(Or(Zero(), BitsOf(i % 32, WIDTH)), BitsOf(Shift(1, k30), WIDTH)), BitsOf(Shift(version % 256, k8), WIDTH))
  }

  lemma HandleWordIs(i: nat, version: int, k8: nat, k30: nat)
    requires i < LIMIT && k8 == VERSION_OFFSET && k30 == INDICATOR_OFFSET
    ensures HandleWord(i, version, k8, k30) == BitsOf(Encode(i, version), WIDTH)
  {
    assert i % 32 == i;
    OrZero(BitsOf(i, WIDTH));
    EncodeJoins(i, version, k8, k30);
  }

  predicate Known(services: seq<Service>, service: Option<nat>) {
    service.Some? ==> service.value < |services|
  }

  /** The value for one slot of the list. */
  method SlotValue(services: seq<Service>, service: Option<nat>, i: nat) returns (value: Word)
    requires i < LIMIT && Known(services, service)
    ensures IsValue(services, service, i, value)
  {
    value := Zero();
    if service.Some? {
      var version := services[service.value].version;
      HandleWordIs(i, version, VERSION_OFFSET, INDICATOR_OFFSET);
      value := HandleWord(i, version, VERSION_OFFSET, INDICATOR_OFFSET);
    }
  }

  lemma OrZero(w: Word)
    ensures Or(Zero(), w) == w
  {
  }

  /** The value of slot `j`: its number and the version of its service, or none. */
  ghost predicate IsValue(services: seq<Service>, service: Option<nat>, j: nat, value: Word) {
    && (service.None? ==> value == Zero())
    && (service.Some? ==> service.value < |services| && value == BitsOf(Encode(j, services[service.value].version), WIDTH))
  }

  ghost predicate Encoded(services: seq<Service>, slots: seq<Option<nat>>, values: seq<Word>) {
    |values| == |slots| && forall j | 0 <= j < |slots| :: IsValue(services, slots[j], j, values[j])
  }

  lemma {:induction false} FreeGrows(slots: seq<Option<nat>>, i: nat, j: nat)
    requires i < j <= |slots|
    ensures Free(slots[..i]) + (if slots[i].None? then 1 else 0) <= Free(slots[..j])
    decreases j
  {
    assert slots[..j][..j - 1] == slots[..j - 1];
    if i < j - 1 {
      FreeGrows(slots, i, j - 1);
    }
  }

  /** The free slot that has exactly `t` free slots before it. */
  lemma {:induction false} FreeSlot(slots: seq<Option<nat>>, t: nat) returns (j: nat)
    requires t < Free(slots)
    ensures j < |slots| && slots[j].None? && Free(slots[..j]) == t
    decreases |slots|
  {
    var n := |slots| - 1;
    if t < Free(slots[..n]) {
      j := FreeSlot(slots[..n], t);
      assert slots[..n][..j] == slots[..j];
    } else {
      j := n;
    }
  }

  /** There are at most 32 services, so there is a slot for every waiting one. */
  lemma EveryServicePlaced(services: seq<Service>, slots: seq<Option<nat>>, autos: seq<nat>, out: seq<Option<nat>>, k: nat)
    requires Sorted(services, |services|, slots, autos) && |services| <= LIMIT && k < |services|
    requires |out| == LIMIT && forall j | 0 <= j < LIMIT :: out[j] == Final(slots, autos, j)
    ensures Contains(out, k)
  {
    if services[k].setting.Fixed? {
      assert slots[services[k].setting.h - 1] == Some(k);
      assert out[services[k].setting.h - 1] == Some(k);
    } else {
      assert !services[k].setting.Other? && IsAuto(services[k]);
      var t :| 0 <= t < |autos| && autos[t] == k;
      var j := FreeSlot(slots, t);
      assert out[j] == Some(k);
    }
  }

  lemma FinalKind(services: seq<Service>, slots: seq<Option<nat>>, autos: seq<nat>, j: nat)
    requires Sorted(services, |services|, slots, autos) && j < LIMIT
    ensures var x := Final(slots, autos, j);
            && (x.Some? ==> x.value < |services|)
            && (x.Some? && slots[j].Some? ==> services[x.value].setting == Fixed(j + 1))
            && (x.Some? && slots[j].None? ==> IsAuto(services[x.value]) && Free(slots[..j]) < |autos| && x.value == autos[Free(slots[..j])])
  {
  }

  /** Two slots of the final list, in order. */
  lemma FinalPair(services: seq<Service>, slots: seq<Option<nat>>, autos: seq<nat>, i: nat, j: nat)
    requires Sorted(services, |services|, slots, autos) && i < j < LIMIT
    ensures var x, y := Final(slots, autos, i), Final(slots, autos, j);
            && (x.Some? ==> y != x)
            && (y.Some? && slots[j].None? ==> x.Some?)
            && (x.Some? && y.Some? && slots[i].None? && slots[j].None? ==> x.value < y.value)
  {
    FreeGrows(slots, i, j);
    FinalKind(services, slots, autos, i);
    FinalKind(services, slots, autos, j);
  }

  lemma FilledIsPlaced(services: seq<Service>, slots: seq<Option<nat>>, autos: seq<nat>, out: seq<Option<nat>>)
    requires Sorted(services, |services|, slots, autos) && |services| <= LIMIT
    requires |out| == LIMIT && forall j | 0 <= j < LIMIT :: out[j] == Final(slots, autos, j)
    ensures Placed(services, out)
  {
    forall k: nat | k < |services|
      ensures Contains(out, k)
    {
      EveryServicePlaced(services, slots, autos, out, k);
    }
    forall i | 0 <= i < LIMIT && out[i].Some?
      ensures out[i].value < |services|
      ensures services[out[i].value].setting.Fixed? ==> services[out[i].value].setting.h == i + 1
      ensures AutoAt(services, out, i) ==> slots[i].None?
    {
      FinalKind(services, slots, autos, i);
    }
    forall i: nat, j: nat | i < j < LIMIT
      ensures out[i].Some? ==> out[j] != out[i]
      ensures out[j].Some? && slots[j].None? ==> out[i].Some?
      ensures out[i].Some? && out[j].Some? && slots[i].None? && slots[j].None? ==> out[i].value < out[j].value
    {
      FinalPair(services, slots, autos, i, j);
    }
  }

  /** `process_stateless_services` on the collected services: the tool accepts exactly the acceptable
      manifests, and places every service. */
  method ProcessStatelessServices(services: seq<Service>) returns (r: Outcome)
    ensures r.NoServices? <==> services == []
    ensures r.Listed? <==> services != [] && Acceptable(services)
    ensures r.Listed? ==> Placed(services, r.slots) && Encoded(services, r.slots, r.values)
    ensures r.TooMany? <==> |services| > LIMIT
    ensures r.InvalidSetting? ==> exists k | 0 <= k < |services| :: !InRange(services[k])
    ensures r.DuplicatedSetting? ==> Duplicated(services)
  {
    if |services| == 0 {
      return NoServices;
    }
    if |services| > LIMIT {
      return TooMany;
    }
    var ok, slots, autos;
    ok, r, slots, autos := SortServices(services);
    if !ok {
      return;
    }
    forall j | 0 <= j < LIMIT
      ensures Known(services, Final(slots, autos, j))
    {
      FinalKind(services, slots, autos, j);
    }
    var out, values := FillSlots(services, slots, autos);
    FilledIsPlaced(services, slots, autos, out);
    r := Listed(out, values);
  }

  // ---- Encoding ---------------------------------------------------------------------------------

  /** `c << k` */
  function Shift(c: nat, k: nat): nat
    decreases k, c
  {
    if k == 0 then c else 2 * Shift(c, k - 1)
  }

  lemma {:induction false} ShiftIsProduct(c: nat, k: nat)
    ensures Shift(c, k) == c * Pow2(k)
    decreases k
  {
    if k > 0 {
      ShiftIsProduct(c, k - 1);
      assert c * (2 * Pow2(k - 1)) == 2 * (c * Pow2(k - 1));
    }
  }

  /** Putting a shifted number above one of `k` bits: adding them is joining their bits. */
  lemma {:induction false} JoinIsSum(a: nat, c: nat, k: nat, width: nat, i: nat)
    requires a < Pow2(k) && i < width
    ensures BitsOf(a + Shift(c, k), width)[i] <==> BitsOf(a, width)[i] || BitsOf(Shift(c, k), width)[i]
    decreases width
  {
    if k == 0 {
      ZeroBits(width, i);
    } else if i > 0 {
      BitStep(a + Shift(c, k), width, i);
      BitStep(a, width, i);
      BitStep(Shift(c, k), width, i);
      assert (a + Shift(c, k)) / 2 == a / 2 + Shift(c, k - 1);
      JoinIsSum(a / 2, c, k - 1, width - 1, i - 1);
    }
  }

  lemma BitStep(x: nat, width: nat, i: nat)
    requires 0 < i < width
    ensures BitsOf(x, width)[i] == BitsOf(x / 2, width - 1)[i - 1]
  {
  }

  lemma {:induction false} ZeroBits(width: nat, i: nat)
    requires i < width
    ensures !BitsOf(0, width)[i]
    decreases width
  {
    if i > 0 {
      ZeroBits(width - 1, i - 1);
    }
  }

  const VERSION_OFFSET: nat := 8
  const INDICATOR_OFFSET: nat := 30

  /** The value of the static handle in slot `i`: slot number, version modulo 256 from bit 8 on, bit 30 set. */
  function Encode(i: nat, version: int): nat {
    i % 32 + (version % 256) * 256 + 0x4000_0000
  }

  lemma PowersUsed(k8: nat, k30: nat)
    requires k8 == 8 && k30 == 30
    ensures Pow2(k8) == 256 && Pow2(k30) == 0x4000_0000
  {
    assert Pow2(8) == 256 && Pow2(10) == 1024;
    Pow2Sum(10, 10);
    Pow2Sum(10, 20);
  }

  /** The parts share no bit: every bit of the value is a bit of slot number, version or indicator. */
  lemma EncodeBits(i: nat, version: int, k8: nat, k30: nat, width: nat, b: nat)
    requires i < LIMIT && k8 == 8 && k30 == 30 && b < width
    ensures BitsOf(Encode(i, version), width)[b]
       <==> BitsOf(i, width)[b] || BitsOf(Shift(1, k30), width)[b] || BitsOf(Shift(version % 256, k8), width)[b]
  {
    PowersUsed(k8, k30);
    ShiftIsProduct(version % 256, k8);
    ShiftIsProduct(1, k30);
    PartsJoin(i, version % 256, k8, k30, width, b);
  }

  lemma PartsJoin(i: nat, v: nat, k: nat, l: nat, width: nat, b: nat)
    requires i < Pow2(k) && i + Shift(v, k) < Pow2(l) && b < width
    ensures BitsOf(i + Shift(v, k) + Shift(1, l), width)[b]
       <==> BitsOf(i, width)[b] || BitsOf(Shift(1, l), width)[b] || BitsOf(Shift(v, k), width)[b]
  {
    JoinIsSum(i, v, k, width, b);
    JoinIsSum(i + Shift(v, k), 1, l, width, b);
  }

  /** Joining the three parts one after another, as the tool does, yields the value. */
  lemma EncodeJoins(i: nat, version: int, k8: nat, k30: nat)
    requires i < LIMIT && k8 == 8 && k30 == 30
    ensures Or(Or(BitsOf(i, WIDTH), BitsOf(Shift(1, k30), WIDTH)), BitsOf(Shift(version % 256, k8), WIDTH))
         == BitsOf(Encode(i, version), WIDTH)
  {
    forall b: nat | b < WIDTH
      ensures BitsOf(Encode(i, version), WIDTH)[b]
         <==> BitsOf(i, WIDTH)[b] || BitsOf(Shift(1, k30), WIDTH)[b] || BitsOf(Shift(version % 256, k8), WIDTH)[b]
    {
      EncodeBits(i, version, k8, k30, WIDTH, b);
    }
  }

  /** Slot, version and indicator can be read back. */
  lemma EncodeDecodes(i: nat, version: int)
    requires i < LIMIT
    ensures var e := Encode(i, version);
            e % 32 == i && (e / 256) % 256 == version % 256 && e / 0x4000_0000 == 1 && e < 0x1_0000_0000
  {
  }

  /** In one list the values are all different. */
  lemma EncodeDistinct(i: nat, j: nat, v: int, w: int)
    requires i < LIMIT && j < LIMIT && Encode(i, v) == Encode(j, w)
    ensures i == j && v % 256 == w % 256
  {
    EncodeDecodes(i, v);
    EncodeDecodes(j, w);
  }

  lemma {:induction false} BitsInjective(x: nat, y: nat, k: nat)
    requires x < Pow2(k) && y < Pow2(k) && BitsOf(x, k) == BitsOf(y, k)
    ensures x == y
    decreases k
  {
    if k > 0 {
      assert BitsOf(x, k)[0] == BitsOf(y, k)[0];
      assert BitsOf(x, k)[1..] == BitsOf(x / 2, k - 1) && BitsOf(y, k)[1..] == BitsOf(y / 2, k - 1);
      BitsInjective(x / 2, y / 2, k - 1);
    }
  }

  /** Different slots with services never have the same value. */
  lemma ValuesDistinct(services: seq<Service>, slots: seq<Option<nat>>, values: seq<Word>, i: nat, j: nat)
    requires |slots| == LIMIT && Encoded(services, slots, values)
    requires i < LIMIT && j < LIMIT && slots[i].Some? && slots[j].Some? && values[i] == values[j]
    ensures i == j
  {
    assert IsValue(services, slots[i], i, values[i]) && IsValue(services, slots[j], j, values[j]);
    var v, w := services[slots[i].value].version, services[slots[j].value].version;
    EncodeDecodes(i, v);
    EncodeDecodes(j, w);
    Pow2Width(WIDTH);
    BitsInjective(Encode(i, v), Encode(j, w), WIDTH);
    EncodeDistinct(i, j, v, w);
  }
}
