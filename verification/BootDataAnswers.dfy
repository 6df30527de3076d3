/** When entries and measurements are added to the shared boot data, and what is then in the list, in terms of major
    type, slot or module, claim and data of the entries alone. */
module BootDataAnswers {
  import opened Align
  import opened Bytes
  import opened BootData

  /** An entry of a measurement slot with this claim. */
  predicate Has(e: Entry, slot: nat, claim: nat) {
    Major(e.ty) == 3 && Module(e.ty) == slot && Claim(e.ty) == claim
  }

  /** The fields of a type: four bits of major type, six of slot or module, six of claim. */
  lemma TypeFields(t: nat)
    ensures Major(t) == t / 4096 && Minor(t) == t % 4096 && Module(t) == (t % 4096) / 64 && Claim(t) == t % 64
  {
  }

  /** The header of an area: magic number 0x2016 and total length, low bytes first. */
  lemma AreaBytes(m: seq<Byte>, es: seq<Entry>)
    requires HoldsList(m, es)
    ensures var size := 4 + |Print(es)|; m[0] == 0x16 && m[1] == 0x20 && m[2] == size % 256 && m[3] == size / 256
  {
    HeaderBytes(m, HEADER_SIZE + |Print(es)|);
  }

  lemma HeaderBytes(m: seq<Byte>, size: nat)
    requires 4 <= |m| && size <= 65535 && m[0..2] == Half(MAGIC) && m[2..4] == Half(size)
    ensures m[0] == 0x16 && m[1] == 0x20 && m[2] == size % 256 && m[3] == size / 256
  {
    HalfBytes(m, 0, MAGIC);
    HalfBytes(m, 2, size);
  }

  lemma HalfBytes(m: seq<Byte>, at: nat, v: nat)
    requires at + 2 <= |m| && m[at..at + 2] == Half(v) && v <= 65535
    ensures m[at] == v % 256 && m[at + 1] == v / 256
  {
    assert m[at] == m[at..at + 2][0] && m[at + 1] == m[at..at + 2][1];
  }

  /** The bytes of entry `i`: type, length and data. */
  lemma EntryLayout(m: seq<Byte>, es: seq<Entry>, i: nat)
    requires HoldsList(m, es) && i < |es|
    ensures var at, e := Offset(es, i), es[i];
            && at + 4 + |e.data| <= |m|
            && e.ty == m[at] as int + 256 * (m[at + 1] as int) && |e.data| == m[at + 2] as int + 256 * (m[at + 3] as int)
            && m[at + 4..at + 4 + |e.data|] == e.data
  {
    EntryInMemory(m, es, i);
  }

  ghost predicate Holds(es: seq<Entry>, slot: nat, claim: nat) {
    exists i :: 0 <= i < |es| && Has(es[i], slot, claim)
  }

  /** An entry is added exactly when no entry has this major and minor type and the area, and a 16-bit length, have
      room for it; it then is the last one, with the given data. */
  lemma AddAnswers(es: seq<Entry>, room: nat, major: nat, minor: nat, data: seq<Byte>)
    ensures var (rc, es') := Add(es, room, major, minor, data);
            var size := Offset(es, |es|) + 4 + |data|;
            if (exists i :: 0 <= i < |es| && es[i].ty / 4096 == major && es[i].ty % 4096 == minor) || size > room || size > 65535
            then rc == -1 && es' == es
            else
              && rc == 0 && |es'| == |es| + 1 && es'[..|es|] == es && es'[|es|].data == data
              && es'[|es|].ty / 4096 == major % 16 && es'[|es|].ty % 4096 == minor % 4096
  {
    AddPlain(es, room, major, minor, data);
    assert Present(es, major, minor) <==> exists i :: 0 <= i < |es| && Matches(es[i], major, minor);
    var q, r := major % 16, minor % 4096;
    DivUnique(q * 4096 + r, 4096, q, r);
  }

  // ---- Measurements ----------------------------------------------------------------------------

  lemma HoldsIsPresent(es: seq<Entry>, slot: nat, claim: nat)
    requires claim < 64
    ensures Present(es, MAJOR_MBS, SlotMinor(slot, claim)) <==> Holds(es, slot % 64, claim)
  {
    assert SlotMinor(slot, claim) == SlotMinor(slot % 64, claim);
    forall i | 0 <= i < |es|
      ensures Matches(es[i], MAJOR_MBS, SlotMinor(slot, claim)) <==> Has(es[i], slot % 64, claim)
    {
      SlotMatches(es[i], slot % 64, claim);
    }
  }

  function SlotEntry(slot: nat, claim: nat, data: seq<Byte>): Entry {
    Entry(Type(MAJOR_MBS, SlotMinor(slot, claim)), data)
  }

  /** Adding one entry of a measurement slot. */
  lemma AddToSlot(es: seq<Entry>, room: nat, slot: nat, claim: nat, data: seq<Byte>)
    requires claim < 64
    ensures var r, e := Add(es, room, MAJOR_MBS, SlotMinor(slot, claim), data), SlotEntry(slot, claim, data);
            var size := Offset(es, |es|) + 4 + |data|;
            && Has(e, slot % 64, claim) && Offset(es + [e], |es| + 1) == size
            && r == if Holds(es, slot % 64, claim) || size > room || size > 65535 then (-1, es) else (0, es + [e])
  {
    AddPlain(es, room, MAJOR_MBS, SlotMinor(slot, claim), data);
    OffsetOfOneMore(es, SlotEntry(slot, claim, data));
    HoldsIsPresent(es, slot, claim);
    MaskedEntry(slot, claim, data);
  }

  lemma MaskedEntry(slot: nat, claim: nat, data: seq<Byte>)
    requires claim < 64
    ensures Has(Entry(Type(MAJOR_MBS, SlotMinor(slot, claim)), data), slot % 64, claim)
  {
    assert SlotMinor(slot, claim) == SlotMinor(slot % 64, claim);
    NewEntry(slot % 64, claim, data);
  }

  lemma RoomIs(es: seq<Entry>, room: nat, n: nat)
    ensures HasRoom(es, room, n) <==> Offset(es, |es|) + 4 + n <= room && Offset(es, |es|) + 4 + n <= 65535
  {
    PrintLength(es);
  }

  lemma AddPlain(es: seq<Entry>, room: nat, major: nat, minor: nat, data: seq<Byte>)
    ensures var r := Add(es, room, major, minor, data);
            var size := Offset(es, |es|) + 4 + |data|;
            if Present(es, major, minor) || size > room || size > 65535 then r == (-1, es)
            else r == (0, es + [Entry(Type(major, minor), data)])
  {
    RoomIs(es, room, |data|);
  }

  lemma OffsetOfOneMore(es: seq<Entry>, e: Entry)
    ensures Offset(es + [e], |es| + 1) == Offset(es, |es|) + 4 + |e.data|
  {
    assert (es + [e])[..|es|] == es;
    OffsetPrefix(es + [e], |es|, |es|);
  }

  /** A measurement is stored exactly when its slot exists, both pointers are given, the slot has neither metadata
      nor a value of this kind yet, and there is room for both entries. Then two entries follow the others: the
      metadata (0x0A), and the value, non-extendable (0x0B) if locked and extendable (0x08) if not. */
  lemma StoreAnswers(es: seq<Entry>, room: nat, slots: nat, slot: nat, value: Buffer, meta: Buffer, lock: bool)
    ensures var (rc, es') := Store(es, room, slots, slot, value, meta, lock);
            var k, claim := slot % 64, if lock then 0x0B else 0x08;
            && (rc == 0 <==>
                  && slot < slots && value.Buffer? && meta.Buffer? && !Holds(es, k, 0x0A) && !Holds(es, k, claim)
                  && Offset(es, |es|) + 4 + |meta.bytes| + 4 + |value.bytes| <= room
                  && Offset(es, |es|) + 4 + |meta.bytes| + 4 + |value.bytes| <= 65535)
            && (rc != 0 ==> rc == -1)
            && (rc == 0 ==>
                  && |es'| == |es| + 2 && es'[..|es|] == es
                  && Has(es'[|es|], k, 0x0A) && es'[|es|].data == meta.bytes
                  && Has(es'[|es| + 1], k, claim) && es'[|es| + 1].data == value.bytes)
  {
    if slot < slots && meta.Buffer? {
      StoreSteps(es, room, slots, slot, value, meta.bytes, lock);
      MaskedEntry(slot, 0x0A, meta.bytes);
      if value.Buffer? {
        MaskedEntry(slot, if lock then 0x0B else 0x08, value.bytes);
      }
    }
  }

  /** The two additions of a measurement. */
  lemma StoreSteps(es: seq<Entry>, room: nat, slots: nat, slot: nat, value: Buffer, meta: seq<Byte>, lock: bool)
    requires slot < slots
    ensures var r := Store(es, room, slots, slot, value, Buffer(meta), lock);
            var k, claim, size, e := slot % 64, if lock then 0x0B else 0x08, Offset(es, |es|) + 4 + |meta|, SlotEntry(slot, 0x0A, meta);
            if Holds(es, k, 0x0A) || size > room || size > 65535 then r == (-1, es)
            else if value.Null? || Holds(es, k, claim) || size + 4 + |value.bytes| > room || size + 4 + |value.bytes| > 65535
            then r == (-1, es + [e])
            else r == (0, es + [e] + [SlotEntry(slot, claim, value.bytes)])
  {
    var k, claim, e := slot % 64, if lock then 0x0B else 0x08, SlotEntry(slot, 0x0A, meta);
    AddToSlot(es, room, slot, 0x0A, meta);
    if value.Buffer? {
      AddToSlot(es + [e], room, slot, claim, value.bytes);
      HoldsBehind(es, e, k, claim);
    }
  }

  lemma HoldsBehind(es: seq<Entry>, e: Entry, slot: nat, claim: nat)
    requires !Has(e, slot, claim)
    ensures Holds(es + [e], slot, claim) <==> Holds(es, slot, claim)
  {
    if i :| 0 <= i < |es| && Has(es[i], slot, claim) {
      assert (es + [e])[i] == es[i];
    }
  }

  // ---- Locked for good -------------------------------------------------------------------------

  /** Nothing is ever taken out of the list or changed. */
  lemma {:induction false} EntriesStay(es: seq<Entry>, room: nat, slots: nat, run: seq<Addition>)
    ensures es <= AddAll(es, room, slots, run)
    decreases |run|
  {
    if run != [] {
      assert es <= AddOne(es, room, slots, run[0]);
      EntriesStay(AddOne(es, room, slots, run[0]), room, slots, run[1..]);
    }
  }

  /** A slot whose value was stored locked keeps this value, and never has an extendable one, whatever is added
      later. */
  lemma LockedForGood(es: seq<Entry>, room: nat, slots: nat, slot: nat, value: Buffer, meta: Buffer, run: seq<Addition>, j: nat)
    requires OneValuePerSlot(es) && Store(es, room, slots, slot, value, meta, true).0 == 0
    requires forall k | 0 <= k < |run| && run[k].Other? :: !IsValueType(Type(run[k].major, run[k].minor))
    ensures var all := AddAll(Store(es, room, slots, slot, value, meta, true).1, room, slots, run);
            && |es| + 1 < |all| && Has(all[|es| + 1], slot % 64, 0x0B) && value.Buffer? && all[|es| + 1].data == value.bytes
            && (j < |all| ==> !Has(all[j], slot % 64, 0x08))
  {
    var es1 := Store(es, room, slots, slot, value, meta, true).1;
    var all := AddAll(es1, room, slots, run);
    StoreAnswers(es, room, slots, slot, value, meta, true);
    StoreKeepsOneValue(es, room, slots, slot, value, meta, true);
    OneValueAlways(es1, room, slots, run);
    EntriesStay(es1, room, slots, run);
    assert all[|es| + 1] == es1[|es| + 1];
    assert IsMeasurement(all[|es| + 1], slot % 64);
    assert j < |all| && Has(all[j], slot % 64, 0x08) ==> IsMeasurement(all[j], slot % 64);
  }

  // ---- Boot records ----------------------------------------------------------------------------

  /** Entry `i` is the first one of its module, and a boot record. */
  ghost predicate LeadingRecord(es: seq<Entry>, i: nat) {
    && i < |es| && Claim(es[i].ty) == 0x3F
    && forall k | 0 <= k < i :: Module(es[k].ty) != Module(es[i].ty)
  }

  /** What the attestation service encodes: the data of the leading boot records of all modules below `n`, each
      once, in the order of the modules. */
  lemma {:induction false} RecordsAre(es: seq<Entry>, n: nat) returns (idx: seq<nat>)
    ensures |idx| == |Records(es, n)|
    ensures forall k | 0 <= k < |idx| ::
              LeadingRecord(es, idx[k]) && Module(es[idx[k]].ty) < n && Records(es, n)[k] == es[idx[k]].data
    ensures forall k, l | 0 <= k < l < |idx| ::
              LeadingRecord(es, idx[k]) && LeadingRecord(es, idx[l]) && Module(es[idx[k]].ty) < Module(es[idx[l]].ty)
    ensures forall i: nat | LeadingRecord(es, i) && Module(es[i].ty) < n :: i in idx
  {
    idx := [];
    if n > 0 {
      idx := RecordsAre(es, n - 1);
      var i := NextOf(es, n - 1, 0);
      forall j: nat | LeadingRecord(es, j) && Module(es[j].ty) == n - 1
        ensures j == i
      {
      }
      if i < |es| && Claim(es[i].ty) == BOOT_RECORD {
        idx := idx + [i];
      }
    }
  }
}
