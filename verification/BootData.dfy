/** Boot data shared between the bootloader and the runtime firmware: type-length-value entries behind a header
    (src/secure_fw/spm/include/boot/tfm_boot_status.h), as lists of entries and their printed form. */
module BootData {
  import opened Align
  import opened Bytes

  const MAGIC := 0x2016
  const HEADER_SIZE: nat := 4
  const ENTRY_HEADER_SIZE: nat := 4
  const UINT16_MAX := 0xFFFF

  // ---- Types -----------------------------------------------------------------------------------

  /** SET_TLV_TYPE: four bits of major and twelve bits of minor type. */
  function Type(major: nat, minor: nat): (t: nat)
    ensures t <= UINT16_MAX
  {
    (major % 16) * 4096 + minor % 4096
  }

  function Major(t: nat): nat { t / 4096 }
  function Minor(t: nat): nat { t % 4096 }

  /** GET_IAS_MODULE and GET_IAS_CLAIM, GET_MBS_SLOT and GET_MBS_CLAIM. */
  function Module(t: nat): nat { (t % 4096) / 64 }
  function Claim(t: nat): nat { t % 64 }

  /** SET_MBS_MINOR. */
  function SlotMinor(slot: nat, claim: nat): nat {
    (slot % 64) * 64 + claim % 64
  }

  /** Within their widths, types can be taken apart again. */
  lemma TypeParts(major: nat, minor: nat)
    ensures Major(Type(major, minor)) == major <==> major < 16
    ensures Minor(Type(major, minor)) == minor <==> minor < 4096
  {
  }

  lemma SlotParts(major: nat, slot: nat, claim: nat)
    requires slot < 64 && claim < 64
    ensures var t := Type(major, SlotMinor(slot, claim));
            Module(t) == slot && Claim(t) == claim && SlotMinor(slot, claim) < 4096
  {
    var q, mn := major % 16, slot * 64 + claim;
    var t := q * 4096 + mn;
    DivUnique(slot, 64, 0, slot);
    DivUnique(claim, 64, 0, claim);
    DivUnique(mn, 4096, 0, mn);
    DivUnique(t, 4096, q, mn);
    DivUnique(mn, 64, slot, claim);
    DivUnique(t, 64, q * 64 + slot, claim);
  }

  // ---- Printing --------------------------------------------------------------------------------

  datatype Entry = Entry(ty: nat, data: seq<Byte>)

  predicate Fits(e: Entry) {
    e.ty <= UINT16_MAX && |e.data| <= UINT16_MAX
  }

  function Low(v: nat): Byte { v % 256 }
  function High(v: nat): Byte { (v / 256) % 256 }

  /** A 16-bit number in memory, low byte first. */
  function Half(v: nat): (r: seq<Byte>)
    ensures |r| == 2
  {
    [Low(v), High(v)]
  }

  function HalfAt(m: seq<Byte>, at: nat): (v: nat)
    requires at + 2 <= |m|
    ensures v <= UINT16_MAX
  {
    m[at] as int + 256 * (m[at + 1] as int)
  }

  lemma HalfRoundTrip(m: seq<Byte>, at: nat, v: nat)
    requires at + 2 <= |m| && v <= UINT16_MAX && m[at..at + 2] == Half(v)
    ensures HalfAt(m, at) == v
  {
    assert m[at] == m[at..at + 2][0] && m[at + 1] == m[at..at + 2][1];
  }

  function PrintEntry(e: Entry): (r: seq<Byte>)
    ensures |r| == ENTRY_HEADER_SIZE + |e.data|
  {
    Half(e.ty) + Half(|e.data|) + e.data
  }

  function Print(es: seq<Entry>): seq<Byte> {
    if es == [] then [] else Print(es[..|es| - 1]) + PrintEntry(es[|es| - 1])
  }

  lemma PrintAppend(es: seq<Entry>, e: Entry)
    ensures Print(es + [e]) == Print(es) + PrintEntry(e)
  {
    assert (es + [e])[..|es|] == es;
  }

  /** Where entry `i` starts, counted from the beginning of the area. */
  function Offset(es: seq<Entry>, i: nat): (at: nat)
    requires i <= |es|
    ensures at >= HEADER_SIZE
    decreases i
  {
    if i == 0 then HEADER_SIZE else Offset(es, i - 1) + ENTRY_HEADER_SIZE + |es[i - 1].data|
  }

  lemma {:induction false} OffsetGrows(es: seq<Entry>, i: nat, j: nat)
    requires i <= j <= |es|
    ensures Offset(es, i) <= Offset(es, j) && (Offset(es, i) == Offset(es, j) <==> i == j)
    decreases j
  {
    if i < j {
      OffsetGrows(es, i, j - 1);
    }
  }

  lemma {:induction false} OffsetPrefix(es: seq<Entry>, n: nat, i: nat)
    requires i <= n <= |es|
    ensures Offset(es[..n], i) == Offset(es, i)
    decreases i
  {
    if i > 0 {
      OffsetPrefix(es, n, i - 1);
    }
  }

  lemma {:induction false} PrintLength(es: seq<Entry>)
    ensures HEADER_SIZE + |Print(es)| == Offset(es, |es|)
    decreases |es|
  {
    if es != [] {
      PrintLength(es[..|es| - 1]);
      OffsetPrefix(es, |es| - 1, |es| - 1);
    }
  }

  /** The bytes from `p` on are those of the entry. */
  ghost predicate EntryIn(body: seq<Byte>, p: nat, e: Entry) {
    p + (ENTRY_HEADER_SIZE + |e.data|) <= |body| && body[p..p + (ENTRY_HEADER_SIZE + |e.data|)] == PrintEntry(e)
  }

  /** The entries tile the printed list: each lies where the lengths of the ones before it put it. */
  lemma {:induction false} PrintHas(es: seq<Entry>, i: nat)
    requires i < |es|
    ensures EntryIn(Print(es), Offset(es, i) - HEADER_SIZE, es[i])
    decreases |es|
  {
    var last := |es| - 1;
    var p, n := Offset(es, i) - HEADER_SIZE, ENTRY_HEADER_SIZE + |es[i].data|;
    OffsetPrefix(es, last, i);
    if i < last {
      PrintHas(es[..last], i);
      AppendSlice(Print(es[..last]), PrintEntry(es[last]), p, p + n);
    } else {
      PrintLength(es[..last]);
      AppendTail(Print(es[..last]), PrintEntry(es[last]));
    }
  }

  lemma AppendSlice(p: seq<Byte>, q: seq<Byte>, at: nat, end: nat)
    requires at <= end <= |p|
    ensures (p + q)[at..end] == p[at..end]
  {
  }

  lemma AppendTail(p: seq<Byte>, q: seq<Byte>)
    ensures (p + q)[|p|..|p| + |q|] == q
  {
  }

  lemma {:induction false} PrintCons(es: seq<Entry>)
    requires es != []
    ensures Print(es) == PrintEntry(es[0]) + Print(es[1..])
    decreases |es|
  {
    var n := |es| - 1;
    if n > 0 {
      PrintCons(es[..n]);
      assert es[..n][1..] == es[1..][..n - 1];
      assert Print(es[1..]) == Print(es[1..][..n - 1]) + PrintEntry(es[n]);
    }
  }

  /** Equal beginnings mean equal first entries. */
  lemma FirstEntry(e: Entry, f: Entry, x: seq<Byte>, y: seq<Byte>)
    requires Fits(e) && Fits(f) && PrintEntry(e) + x == PrintEntry(f) + y
    ensures e == f && x == y
  {
    var m := PrintEntry(e) + x;
    assert m[0..2] == Half(e.ty) && m[2..4] == Half(|e.data|);
    assert m[0..2] == Half(f.ty) && m[2..4] == Half(|f.data|);
    HalfRoundTrip(m, 0, e.ty);
    HalfRoundTrip(m, 0, f.ty);
    HalfRoundTrip(m, 2, |e.data|);
    HalfRoundTrip(m, 2, |f.data|);
    assert m[4..4 + |e.data|] == e.data;
    assert m[4..4 + |f.data|] == f.data;
    assert m[4 + |e.data|..] == x && m[4 + |f.data|..] == y;
  }

  /** Bytes are the printed form of at most one list. */
  lemma {:induction false} PrintInjective(es: seq<Entry>, fs: seq<Entry>)
    requires (forall i | 0 <= i < |es| :: Fits(es[i])) && (forall i | 0 <= i < |fs| :: Fits(fs[i]))
    requires Print(es) == Print(fs)
    ensures es == fs
    decreases |es|
  {
    if es != [] {
      PrintCons(es);
    }
    if fs != [] {
      PrintCons(fs);
    }
    if es != [] && fs != [] {
      FirstEntry(es[0], fs[0], Print(es[1..]), Print(fs[1..]));
      PrintInjective(es[1..], fs[1..]);
      assert es == [es[0]] + es[1..] && fs == [fs[0]] + fs[1..];
    }
  }

  // ---- The area --------------------------------------------------------------------------------

  /** The memory holds exactly these entries: header, then the entries one after another up to the total
      length, within the area. */
  ghost predicate HoldsList(m: seq<Byte>, es: seq<Entry>) {
    var size := HEADER_SIZE + |Print(es)|;
    && (forall i | 0 <= i < |es| :: Fits(es[i]))
    && size <= |m| && size <= UINT16_MAX
    && m[0..2] == Half(MAGIC) && m[2..4] == Half(size) && m[4..size] == Print(es)
  }

  lemma OneList(m: seq<Byte>, es: seq<Entry>, fs: seq<Entry>)
    requires HoldsList(m, es) && HoldsList(m, fs)
    ensures es == fs
  {
    HalfRoundTrip(m, 2, HEADER_SIZE + |Print(es)|);
    HalfRoundTrip(m, 2, HEADER_SIZE + |Print(fs)|);
    PrintInjective(es, fs);
  }

  predicate NeedsInit(m: seq<Byte>)
    requires |m| >= HEADER_SIZE
  {
    HalfAt(m, 0) != MAGIC || HalfAt(m, 2) > |m|
  }

  lemma HoldingIsInitialised(m: seq<Byte>, es: seq<Entry>)
    requires HoldsList(m, es)
    ensures !NeedsInit(m) && HalfAt(m, 2) == HEADER_SIZE + |Print(es)| && HalfAt(m, 0) == MAGIC
  {
    HalfRoundTrip(m, 0, MAGIC);
    HalfRoundTrip(m, 2, HEADER_SIZE + |Print(es)|);
  }

  /** The list an area stands for before a write: nothing, if it has yet to be initialised. */
  ghost predicate StandsFor(m: seq<Byte>, es: seq<Entry>) {
    |m| >= HEADER_SIZE && if NeedsInit(m) then es == [] else HoldsList(m, es)
  }

  /** The end of the list, as the header of the area gives it. */
  lemma ListEnd(m: seq<Byte>, es: seq<Entry>)
    requires HoldsList(m, es)
    ensures HalfAt(m, 2) == Offset(es, |es|) <= |m|
  {
    HoldingIsInitialised(m, es);
    PrintLength(es);
  }

  /** The memory at `at` as the code reads it: type, length and data of an entry. */
  ghost predicate Reads(m: seq<Byte>, at: nat, e: Entry) {
    && at + ENTRY_HEADER_SIZE + |e.data| <= |m|
    && HalfAt(m, at) == e.ty && HalfAt(m, at + 2) == |e.data|
    && m[at + 4..at + 4 + |e.data|] == e.data
  }

  /** What entry `i` looks like in memory. */
  lemma EntryInMemory(m: seq<Byte>, es: seq<Entry>, i: nat)
    requires i < |es| && Fits(es[i])
    requires HEADER_SIZE + |Print(es)| <= |m| && m[4..HEADER_SIZE + |Print(es)|] == Print(es)
    ensures Reads(m, Offset(es, i), es[i])
  {
    PrintHas(es, i);
    EntryInBody(m, Print(es), es[i], Offset(es, i));
  }

  lemma EntryInBody(m: seq<Byte>, body: seq<Byte>, e: Entry, at: nat)
    requires HEADER_SIZE + |body| <= |m| && m[4..HEADER_SIZE + |body|] == body && at >= HEADER_SIZE
    requires EntryIn(body, at - HEADER_SIZE, e) && Fits(e)
    ensures Reads(m, at, e)
  {
    SliceAsEntry(m, body, e, at);
    EntryBytes(m, at, e);
  }

  lemma SliceAsEntry(m: seq<Byte>, body: seq<Byte>, e: Entry, at: nat)
    requires HEADER_SIZE + |body| <= |m| && m[HEADER_SIZE..HEADER_SIZE + |body|] == body && at >= HEADER_SIZE
    requires EntryIn(body, at - HEADER_SIZE, e)
    ensures EntryIn(m, at, e)
  {
    SliceIn(m, HEADER_SIZE, body, at - HEADER_SIZE, ENTRY_HEADER_SIZE + |e.data|, at);
  }

  lemma SliceIn(m: seq<Byte>, lo: nat, body: seq<Byte>, p: nat, n: nat, at: nat)
    requires lo + |body| <= |m| && m[lo..lo + |body|] == body && p + n <= |body| && at == lo + p
    ensures at + n <= |m| && m[at..at + n] == body[p..p + n]
  {
    SliceOfSlice(m, lo, lo + |body|, p, p + n);
  }

  lemma EntryBytes(m: seq<Byte>, at: nat, e: Entry)
    requires Fits(e) && EntryIn(m, at, e)
    ensures Reads(m, at, e)
  {
    var n := |e.data|;
    EntryParts(e);
    SliceOfSlice(m, at, at + 4 + n, 0, 2);
    SliceOfSlice(m, at, at + 4 + n, 2, 4);
    SliceOfSlice(m, at, at + 4 + n, 4, 4 + n);
    HalfRoundTrip(m, at, e.ty);
    HalfRoundTrip(m, at + 2, n);
  }

  lemma EntryParts(e: Entry)
    ensures PrintEntry(e)[0..2] == Half(e.ty) && PrintEntry(e)[2..4] == Half(|e.data|)
    ensures PrintEntry(e)[4..4 + |e.data|] == e.data
  {
    var h := Half(e.ty) + Half(|e.data|);
    assert |h| == 4 && PrintEntry(e) == h + e.data;
    assert PrintEntry(e)[0..2] == h[0..2] && PrintEntry(e)[2..4] == h[2..4];
  }

  lemma SliceOfSlice(m: seq<Byte>, lo: nat, hi: nat, i: nat, j: nat)
    requires lo <= hi <= |m| && i <= j <= hi - lo
    ensures m[lo..hi][i..j] == m[lo + i..lo + j]
  {
    var x, y := m[lo..hi][i..j], m[lo + i..lo + j];
    assert |x| == |y| && forall k | 0 <= k < |x| :: x[k] == m[lo + i + k] == y[k];
  }

  // ---- Adding entries --------------------------------------------------------------------------

  predicate Matches(e: Entry, major: nat, minor: nat) {
    Major(e.ty) == major && Minor(e.ty) == minor
  }

  predicate Present(es: seq<Entry>, major: nat, minor: nat) {
    exists i :: 0 <= i < |es| && Matches(es[i], major, minor)
  }

  predicate HasRoom(es: seq<Entry>, room: nat, size: nat) {
    var total := HEADER_SIZE + |Print(es)|;
    ENTRY_HEADER_SIZE + size <= UINT16_MAX - total && ENTRY_HEADER_SIZE + size + total <= room
  }

  /** `boot_add_data_to_shared_area` on lists. */
  function Add(es: seq<Entry>, room: nat, major: nat, minor: nat, data: seq<Byte>): (int, seq<Entry>) {
    if Present(es, major, minor) || !HasRoom(es, room, |data|) then (-1, es)
    else (0, es + [Entry(Type(major, minor), data)])
  }

  /** A data pointer and its size. */
  datatype Buffer = Null | Buffer(bytes: seq<Byte>)

  function AddBuffer(es: seq<Entry>, room: nat, major: nat, minor: nat, data: Buffer): (int, seq<Entry>) {
    if data.Null? then (-1, es) else Add(es, room, major, minor, data.bytes)
  }

  /** No type occurs twice. */
  ghost predicate Unique(es: seq<Entry>) {
    forall i, j | 0 <= i < j < |es| :: es[i].ty != es[j].ty
  }

  /** Adding keeps types unique whatever the list, exactly when major and minor type fit their fields: the
      search compares them unmasked with the fields of the entries, the stored type is masked. */
  lemma AddKeepsUnique(major: nat, minor: nat)
    ensures (forall es, room, data :: Unique(es) ==> Unique(Add(es, room, major, minor, data).1))
       <==> major < 16 && minor < 4096
  {
    TypeParts(major, minor);
    if major < 16 && minor < 4096 {
      forall es, room, data | Unique(es)
        ensures Unique(Add(es, room, major, minor, data).1)
      {
        if !Present(es, major, minor) {
          assert forall i | 0 <= i < |es| :: !Matches(es[i], major, minor);
        }
      }
    } else {
      var e := Entry(Type(major, minor), []);
      var es := [e];
      assert Print(es) == Print([]) + PrintEntry(e);
      assert Unique(es) && !Present(es, major, minor) && HasRoom(es, 100, 0);
      assert Add(es, 100, major, minor, []).1 == [e, e];
      assert [e, e][0].ty == [e, e][1].ty;
    }
  }

  // ---- Measurements ----------------------------------------------------------------------------

  const MAJOR_MBS: nat := 3
  const METADATA: nat := 0x0A
  const VALUE: nat := 0x08
  const VALUE_NON_EXTENDABLE: nat := 0x0B

  /** `boot_store_measurement` on lists: metadata first, then the value. */
  function Store(es: seq<Entry>, room: nat, slots: nat, slot: nat, value: Buffer, meta: Buffer, lock: bool): (int, seq<Entry>) {
    if slot >= slots then (-1, es)
    else
      var (rc, es1) := AddBuffer(es, room, MAJOR_MBS, SlotMinor(slot, METADATA), meta);
      if rc != 0 then (rc, es1)
      else AddBuffer(es1, room, MAJOR_MBS, SlotMinor(slot, if lock then VALUE_NON_EXTENDABLE else VALUE), value)
  }

  predicate IsMeasurement(e: Entry, slot: nat) {
    Major(e.ty) == MAJOR_MBS && Module(e.ty) == slot && (Claim(e.ty) == VALUE || Claim(e.ty) == VALUE_NON_EXTENDABLE)
  }

  predicate IsMetadata(e: Entry, slot: nat) {
    Major(e.ty) == MAJOR_MBS && Module(e.ty) == slot && Claim(e.ty) == METADATA
  }

  ghost predicate HasMetadata(es: seq<Entry>, slot: nat) {
    exists i :: 0 <= i < |es| && IsMetadata(es[i], slot)
  }

  /** Every slot has at most one value, extendable or not, and only together with its metadata. */
  ghost predicate OneValuePerSlot(es: seq<Entry>) {
    && (forall i, slot | 0 <= i < |es| && IsMeasurement(es[i], slot) :: HasMetadata(es, slot))
    && (forall i, j, slot | 0 <= i < j < |es| && IsMeasurement(es[i], slot) :: !IsMeasurement(es[j], slot))
  }

  /** For entries of a measurement slot, matching types is matching slot and claim. */
  lemma SlotMatches(e: Entry, slot: nat, claim: nat)
    requires slot < 64 && claim < 64
    ensures Matches(e, MAJOR_MBS, SlotMinor(slot, claim))
       <==> Major(e.ty) == MAJOR_MBS && Module(e.ty) == slot && Claim(e.ty) == claim
  {
    MinorIsSlotAndClaim(e.ty);
    SlotMinorInjective(Module(e.ty), Claim(e.ty), slot, claim);
  }

  lemma MinorIsSlotAndClaim(t: nat)
    ensures Minor(t) == SlotMinor(Module(t), Claim(t)) && Module(t) < 64 && Claim(t) < 64
  {
  }

  lemma SlotMinorInjective(slot: nat, claim: nat, slot': nat, claim': nat)
    requires slot < 64 && claim < 64 && slot' < 64 && claim' < 64
    ensures SlotMinor(slot, claim) == SlotMinor(slot', claim') <==> slot == slot' && claim == claim'
  {
    assert SlotMinor(slot, claim) == slot * 64 + claim && SlotMinor(slot', claim') == slot' * 64 + claim';
  }

  lemma NewEntry(slot: nat, claim: nat, data: seq<Byte>)
    requires slot < 64 && claim < 64
    ensures var e := Entry(Type(MAJOR_MBS, SlotMinor(slot, claim)), data);
            Major(e.ty) == MAJOR_MBS && Module(e.ty) == slot && Claim(e.ty) == claim
  {
    SlotParts(MAJOR_MBS, slot, claim);
    TypeParts(MAJOR_MBS, SlotMinor(slot, claim));
  }

  lemma MetadataAbsent(es: seq<Entry>, slot: nat)
    requires slot < 64 && !Present(es, MAJOR_MBS, SlotMinor(slot, METADATA))
    ensures !HasMetadata(es, slot)
  {
    forall i | 0 <= i < |es|
      ensures !IsMetadata(es[i], slot)
    {
      assert !Matches(es[i], MAJOR_MBS, SlotMinor(slot, METADATA));
      SlotMatches(es[i], slot, METADATA);
    }
  }

  /** New metadata disturb nothing. */
  lemma MetadataKeeps(es: seq<Entry>, e: Entry)
    requires OneValuePerSlot(es) && forall s :: !IsMeasurement(e, s)
    ensures OneValuePerSlot(es + [e])
  {
    var fs := es + [e];
    forall i, slot | 0 <= i < |fs| && IsMeasurement(fs[i], slot)
      ensures HasMetadata(fs, slot)
    {
      assert HasMetadata(es, slot);
      var k :| 0 <= k < |es| && IsMetadata(es[k], slot);
      assert IsMetadata(fs[k], slot);
    }
  }

  /** A value may join when its slot has metadata and no value yet. */
  lemma ValueKeeps(es: seq<Entry>, v: Entry, slot: nat)
    requires OneValuePerSlot(es) && HasMetadata(es, slot) && IsMeasurement(v, slot)
    requires forall i | 0 <= i < |es| :: !IsMeasurement(es[i], slot)
    ensures OneValuePerSlot(es + [v])
  {
    var fs := es + [v];
    forall i, s | 0 <= i < |fs| && IsMeasurement(fs[i], s)
      ensures HasMetadata(fs, s)
    {
      assert HasMetadata(es, s);
      var k :| 0 <= k < |es| && IsMetadata(es[k], s);
      assert IsMetadata(fs[k], s);
    }
  }

  /** Storing measurements, locked or not, never gives a slot a second value. Slot numbers are masked to six
      bits. */
  lemma StoreKeepsOneValue(es: seq<Entry>, room: nat, slots: nat, slot: nat, value: Buffer, meta: Buffer, lock: bool)
    requires OneValuePerSlot(es)
    ensures OneValuePerSlot(Store(es, room, slots, slot, value, meta, lock).1)
  {
    var k := slot % 64;
    assert SlotMinor(slot, METADATA) == SlotMinor(k, METADATA);
    if slot < slots && meta.Buffer? && Add(es, room, MAJOR_MBS, SlotMinor(k, METADATA), meta.bytes).0 == 0 {
      var e := Entry(Type(MAJOR_MBS, SlotMinor(k, METADATA)), meta.bytes);
      NewEntry(k, METADATA, meta.bytes);
      MetadataAbsent(es, k);
      MetadataKeeps(es, e);
      if value.Buffer? {
        var claim := if lock then VALUE_NON_EXTENDABLE else VALUE;
        assert SlotMinor(slot, claim) == SlotMinor(k, claim);
        NewEntry(k, claim, value.bytes);
        ValueAfterMetadata(es, e, Entry(Type(MAJOR_MBS, SlotMinor(k, claim)), value.bytes), k);
      }
    }
  }

  lemma ValueAfterMetadata(es: seq<Entry>, e: Entry, v: Entry, slot: nat)
    requires OneValuePerSlot(es) && OneValuePerSlot(es + [e]) && !HasMetadata(es, slot)
    requires IsMetadata(e, slot) && IsMeasurement(v, slot)
    ensures OneValuePerSlot(es + [e] + [v])
  {
    var es1 := es + [e];
    assert IsMetadata(es1[|es|], slot);
    forall i | 0 <= i < |es1|
      ensures !IsMeasurement(es1[i], slot)
    {
      assert i < |es| ==> es1[i] == es[i];
    }
    ValueKeeps(es1, v, slot);
  }

  /** What is added to the area in a run: measurements, and entries that are not measurement values. */
  datatype Addition =
    | Measurement(slot: nat, value: Buffer, meta: Buffer, lock: bool)
    | Other(major: nat, minor: nat, data: Buffer)

  predicate IsValueType(t: nat) {
    Major(t) == MAJOR_MBS && (Claim(t) == VALUE || Claim(t) == VALUE_NON_EXTENDABLE)
  }

  function AddOne(es: seq<Entry>, room: nat, slots: nat, a: Addition): seq<Entry> {
    match a
    case Measurement(slot, value, meta, lock) => Store(es, room, slots, slot, value, meta, lock).1
    case Other(major, minor, data) => AddBuffer(es, room, major, minor, data).1
  }

  function AddAll(es: seq<Entry>, room: nat, slots: nat, run: seq<Addition>): seq<Entry>
    decreases |run|
  {
    if run == [] then es else AddAll(AddOne(es, room, slots, run[0]), room, slots, run[1..])
  }

  /** Over every run of measurements, with any other entries added in between, each slot has at most one
      value. */
  lemma {:induction false} OneValueAlways(es: seq<Entry>, room: nat, slots: nat, run: seq<Addition>)
    requires OneValuePerSlot(es)
    requires forall k | 0 <= k < |run| && run[k].Other? :: !IsValueType(Type(run[k].major, run[k].minor))
    ensures OneValuePerSlot(AddAll(es, room, slots, run))
    decreases |run|
  {
    if run != [] {
      var a := run[0];
      if a.Measurement? {
        StoreKeepsOneValue(es, room, slots, a.slot, a.value, a.meta, a.lock);
      } else if a.data.Buffer? {
        MetadataKeeps(es, Entry(Type(a.major, a.minor), a.data.bytes));
      }
      OneValueAlways(AddOne(es, room, slots, a), room, slots, run[1..]);
    }
  }

  // ---- Reading ---------------------------------------------------------------------------------

  /** The first entry of the module from `start` on, or the length of the list. */
  function NextOf(es: seq<Entry>, module_: nat, start: nat): (i: nat)
    requires start <= |es|
    ensures start <= i <= |es|
    ensures i < |es| ==> Module(es[i].ty) == module_
    ensures forall k | start <= k < i :: Module(es[k].ty) != module_
    decreases |es| - start
  {
    if start == |es| || Module(es[start].ty) == module_ then start else NextOf(es, module_, start + 1)
  }

  /** The entries found by asking again from behind the last answer until there is none. */
  function Visited(es: seq<Entry>, module_: nat, start: nat): seq<nat>
    requires start <= |es|
    decreases |es| - start
  {
    var i := NextOf(es, module_, start);
    if i == |es| then [] else [i] + Visited(es, module_, i + 1)
  }

  /** These are exactly the entries of the module, in their order. */
  lemma {:induction false} VisitsModule(es: seq<Entry>, module_: nat, start: nat)
    requires start <= |es|
    ensures forall k: nat :: k in Visited(es, module_, start) <==> start <= k < |es| && Module(es[k].ty) == module_
    ensures forall a, b | 0 <= a < b < |Visited(es, module_, start)| :: Visited(es, module_, start)[a] < Visited(es, module_, start)[b]
    decreases |es| - start
  {
    var i := NextOf(es, module_, start);
    if i < |es| {
      VisitsModule(es, module_, i + 1);
      var rest := Visited(es, module_, i + 1);
      assert forall b | 0 <= b < |rest| :: rest[b] in rest;
    }
  }

  const SW_MAX: nat := 7
  const BOOT_RECORD: nat := 0x3F

  /** The boot records of the modules below `n`: of each module the first entry, if it is a boot record. */
  function Records(es: seq<Entry>, n: nat): seq<seq<Byte>> {
    if n == 0 then []
    else
      var i := NextOf(es, n - 1, 0);
      Records(es, n - 1) + if i < |es| && Claim(es[i].ty) == BOOT_RECORD then [es[i].data] else []
  }
}
