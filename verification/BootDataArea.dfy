/** The shared area in memory: the bootloader's writer (src/platform/ext/common/boot_hal_bl2.c) and the attestation
    service's reader (src/secure_fw/partitions/initial_attestation/attest_boot_data.c). */
module BootDataArea {
  import opened Bytes
  import opened BootData

  const SIZE_LIMIT := 0xFFFF_FFFC

  /** The reader's answer names entry `i`, or says that there is none. */
  ghost predicate Answers(m: seq<Byte>, es: seq<Entry>, i: nat, found: int, claim: nat, len: nat, at: nat) {
    if i < |es| then
      && found == 1 && claim == Claim(es[i].ty) && len == |es[i].data| && at == Offset(es, i)
      && at + ENTRY_HEADER_SIZE + len <= |m| && m[at + ENTRY_HEADER_SIZE..at + ENTRY_HEADER_SIZE + len] == es[i].data
    else found == 0
  }

  class SharedArea {
    const mem: array<Byte>

    constructor (mem: array<Byte>)
      requires mem.Length >= HEADER_SIZE
      ensures this.mem == mem
    {
      this.mem := mem;
    }

    /** memcpy into the area. */
    method Put(at: nat, data: seq<Byte>)
      requires at + |data| <= mem.Length
      modifies mem
      ensures mem[..] == Patch(old(mem[..]), at, data)
    {
      forall k | 0 <= k < |data| {
        mem[at + k] := data[k];
      }
    }

    /** Clears the area and writes the header of an empty list. */
    method Initialise()
      requires mem.Length >= HEADER_SIZE
      modifies mem
      ensures HoldsList(mem[..], [])
    {
      forall k | 0 <= k < mem.Length {
        mem[k] := 0;
      }
      Put(0, Half(MAGIC));
      Put(2, Half(HEADER_SIZE));
    }

    /** `boot_add_data_to_shared_area`: the area stands for a list, and afterwards it holds the list that `Add`
        yields; the bytes of the entries that were there do not change. */
    method AddData(major: nat, minor: nat, data: Buffer, ghost es: seq<Entry>) returns (rc: int)
      requires StandsFor(mem[..], es) && (data.Buffer? ==> |data.bytes| < SIZE_LIMIT)
      modifies mem
      ensures data.Null? ==> rc == -1 && mem[..] == old(mem[..])
      ensures data.Buffer? ==>
                && rc == Add(es, mem.Length, major, minor, data.bytes).0
                && HoldsList(mem[..], Add(es, mem.Length, major, minor, data.bytes).1)
      ensures !NeedsInit(old(mem[..])) ==>
                mem[..][4..HEADER_SIZE + |Print(es)|] == old(mem[..])[4..HEADER_SIZE + |Print(es)|]
    {
      if data.Null? {
        return -1;
      }
      if NeedsInit(mem[..]) {
        Initialise();
      }
      HoldingIsInitialised(mem[..], es);
      var total := HalfAt(mem[..], 2);
      var found := FindType(mem[..], major, minor, es);
      if found {
        return -1;
      }
      var size := |data.bytes|;
      if ENTRY_HEADER_SIZE + size > UINT16_MAX - total {
        return -1;
      } else if ENTRY_HEADER_SIZE + size + total > mem.Length {
        return -1;
      }
      AppendEntry(total, Type(major, minor), data.bytes, es);
      rc := 0;
    }

    /** Puts a new entry behind the others and counts it in the header. */
    method AppendEntry(total: nat, ty: nat, data: seq<Byte>, ghost es: seq<Entry>)
      requires HoldsList(mem[..], es) && HasRoom(es, mem.Length, |data|) && ty <= UINT16_MAX
      requires total == HEADER_SIZE + |Print(es)|
      modifies mem
      ensures HoldsList(mem[..], es + [Entry(ty, data)])
      ensures mem[..][4..total] == old(mem[..])[4..total]
    {
      ghost var before, e := mem[..], Entry(ty, data);
      PatchTwice(before, total, Half(ty) + Half(|data|), data);
      Put(total, Half(ty) + Half(|data|));
      Put(total + ENTRY_HEADER_SIZE, data);
      ghost var stored := mem[..];
      Put(2, Half(total + ENTRY_HEADER_SIZE + |data|));
      EntryAppended(before, stored, mem[..], es, e, total, total + ENTRY_HEADER_SIZE + |data|);
    }

    /** `boot_store_measurement`. */
    method StoreMeasurement(slots: nat, slot: nat, value: Buffer, meta: Buffer, lock: bool, ghost es: seq<Entry>)
      returns (rc: int)
      requires StandsFor(mem[..], es)
      requires (value.Buffer? ==> |value.bytes| < SIZE_LIMIT) && (meta.Buffer? ==> |meta.bytes| < SIZE_LIMIT)
      modifies mem
      ensures rc == Store(es, mem.Length, slots, slot, value, meta, lock).0
      ensures StandsFor(mem[..], Store(es, mem.Length, slots, slot, value, meta, lock).1)
    {
      if slot >= slots {
        return -1;
      }
      rc := AddData(MAJOR_MBS, SlotMinor(slot, METADATA), meta, es);
      ghost var es1 := AddBuffer(es, mem.Length, MAJOR_MBS, SlotMinor(slot, METADATA), meta).1;
      if meta.Buffer? {
        HoldingIsInitialised(mem[..], es1);
      }
      if rc != 0 {
        return;
      }
      var claim := if lock then VALUE_NON_EXTENDABLE else VALUE;
      rc := AddData(MAJOR_MBS, SlotMinor(slot, claim), value, es1);
      if value.Buffer? {
        HoldingIsInitialised(mem[..], AddBuffer(es1, mem.Length, MAJOR_MBS, SlotMinor(slot, claim), value).1);
      }
    }
  }

  // ---- Walks over the area ----------------------------------------------------------------------------------

  /** What is read at the place of entry `i`, and where the walk over the area goes on from there. */
  lemma EntryAnswers(m: seq<Byte>, es: seq<Entry>, i: nat)
    requires HoldsList(m, es) && i < |es|
    ensures var at, end := Offset(es, i), Offset(es, |es|);
            && at + ENTRY_HEADER_SIZE <= |m| && HalfAt(m, at) == es[i].ty
            && at < at + ENTRY_HEADER_SIZE + HalfAt(m, at + 2) == Offset(es, i + 1) <= end
            && (i + 1 < |es| <==> Offset(es, i + 1) < end)
            && Answers(m, es, i, 1, Claim(es[i].ty), HalfAt(m, at + 2), at)
  {
    EntryInMemory(m, es, i);
    OffsetGrows(es, i + 1, |es|);
  }

  /** The writer's search for an entry of the same type. */
  method FindType(m: seq<Byte>, major: nat, minor: nat, ghost es: seq<Entry>) returns (found: bool)
    requires HoldsList(m, es)
    ensures found == Present(es, major, minor)
  {
    ListEnd(m, es);
    var end := HalfAt(m, 2);
    var offset: nat := HEADER_SIZE;
    ghost var i: nat := 0;
    OffsetGrows(es, i, |es|);
    while offset < end
      invariant i <= |es| && offset == Offset(es, i) <= end && (i < |es| <==> offset < end)
      invariant forall k | 0 <= k < i :: !Matches(es[k], major, minor)
      decreases end - offset
    {
      EntryAnswers(m, es, i);
      var ty, length := HalfAt(m, offset), HalfAt(m, offset + 2);
      if Major(ty) == major && Minor(ty) == minor {
        return true;
      }
      offset := offset + ENTRY_HEADER_SIZE + length;
      i := i + 1;
    }
    found := false;
  }

  /** The loop of `attest_get_tlv_by_module`, from entry `start` on. */
  method ScanModule(m: seq<Byte>, module_: nat, from: nat, ghost start: nat, ghost es: seq<Entry>)
    returns (found: int, claim: nat, len: nat, cursor: nat)
    requires HoldsList(m, es) && start <= |es| && from == Offset(es, start)
    ensures Answers(m, es, NextOf(es, module_, start), found, claim, len, cursor)
  {
    ListEnd(m, es);
    var end := HalfAt(m, 2);
    var at := from;
    ghost var i: nat := start;
    OffsetGrows(es, i, |es|);
    while at < end
      invariant i <= |es| && at == Offset(es, i) <= end && (i < |es| <==> at < end)
      invariant NextOf(es, module_, i) == NextOf(es, module_, start)
      decreases end - at
    {
      EntryAnswers(m, es, i);
      var ty, length := HalfAt(m, at), HalfAt(m, at + 2);
      if Module(ty) == module_ {
        return 1, Claim(ty), length, at;
      }
      at := at + ENTRY_HEADER_SIZE + length;
      i := i + 1;
    }
    found, claim, len, cursor := 0, 0, 0, 0;
  }

  /** `attest_get_tlv_by_module`: starting from no entry or behind entry `last`, it finds the next entry of the
      module, reports -1 on an area without the magic number, and 0 when there is none left. */
  method GetTlvByModule(m: seq<Byte>, module_: nat, cursor: nat, ghost last: int, ghost es: seq<Entry>)
    returns (found: int, claim: nat, len: nat, cursor': nat)
    requires |m| >= HEADER_SIZE && (HalfAt(m, 0) == MAGIC ==> HoldsList(m, es))
    requires -1 <= last < |es| && cursor == if last < 0 then 0 else Offset(es, last)
    ensures HalfAt(m, 0) != MAGIC ==> found == -1
    ensures HalfAt(m, 0) == MAGIC ==> Answers(m, es, NextOf(es, module_, last + 1), found, claim, len, cursor')
  {
    claim, len, cursor' := 0, 0, cursor;
    if HalfAt(m, 0) != MAGIC {
      return -1, claim, len, cursor';
    }
    var at := HEADER_SIZE;
    if cursor != 0 {
      EntryInMemory(m, es, last);
      at := cursor + ENTRY_HEADER_SIZE + HalfAt(m, cursor + 2);
    }
    found, claim, len, cursor' := ScanModule(m, module_, at, last + 1, es);
  }

  /** The loop of `attest_encode_sw_components_array`: the boot records of all modules, in module order. */
  method EncodeComponents(m: seq<Byte>, ghost es: seq<Entry>) returns (ok: bool, records: seq<seq<Byte>>)
    requires |m| >= HEADER_SIZE && (HalfAt(m, 0) == MAGIC ==> HoldsList(m, es))
    ensures ok <==> HalfAt(m, 0) == MAGIC
    ensures ok ==> records == Records(es, SW_MAX)
  {
    records := [];
    var module_ := 0;
    while module_ < SW_MAX
      invariant module_ <= SW_MAX && records == Records(es, module_)
      invariant module_ > 0 ==> HalfAt(m, 0) == MAGIC
    {
      var found, claim, len, at := GetTlvByModule(m, module_, 0, -1, es);
      if found == -1 {
        return false, records;
      } else if found == 1 && claim == BOOT_RECORD {
        records := records + [m[at + ENTRY_HEADER_SIZE..at + ENTRY_HEADER_SIZE + len]];
      }
      module_ := module_ + 1;
    }
    ok := true;
  }

  /** The memory with the bytes of a new entry behind the old ones. */
  lemma BytesAppended(m: seq<Byte>, total: nat, d: seq<Byte>)
    requires 4 <= total && total + |d| <= |m|
    ensures var m1 := Patch(m, total, d);
            m1[0..2] == m[0..2] && m1[4..total] == m[4..total] && m1[4..total + |d|] == m[4..total] + d
  {
    PatchBefore(m, total, d, 0, 2);
    PatchBefore(m, total, d, 4, total);
    PatchAt(m, total, d);
    JoinSlices(Patch(m, total, d), 4, total, total + |d|);
  }

  /** The memory with a new length in the header. */
  lemma LengthChanged(m: seq<Byte>, d: seq<Byte>, i: nat, j: nat)
    requires |d| == 2 && 4 <= i <= j <= |m|
    ensures var m1 := Patch(m, 2, d);
            m1[0..2] == m[0..2] && m1[2..4] == d && m1[4..i] == m[4..i] && m1[4..j] == m[4..j]
  {
    PatchBefore(m, 2, d, 0, 2);
    PatchAt(m, 2, d);
    PatchBehind(m, 2, d, 4, i);
    PatchBehind(m, 2, d, 4, j);
  }

  /** The new entry behind the old ones, and the new length in the header. */
  lemma EntryAppended(m: seq<Byte>, m1: seq<Byte>, m2: seq<Byte>, es: seq<Entry>, e: Entry, total: nat, size: nat)
    requires (forall i | 0 <= i < |es| :: Fits(es[i])) && Fits(e) && total == HEADER_SIZE + |Print(es)| <= |m|
    requires m[0..2] == Half(MAGIC) && m[4..total] == Print(es)
    requires size == total + |PrintEntry(e)| <= |m| && size <= UINT16_MAX
    requires m1 == Patch(m, total, PrintEntry(e)) && m2 == Patch(m1, 2, Half(size))
    ensures HoldsList(m2, es + [e]) && m2[4..total] == m[4..total]
  {
    BytesAppended(m, total, PrintEntry(e));
    LengthChanged(m1, Half(size), total, size);
    LongerList(m, m2, es, e, total, size);
  }

  lemma LongerList(m: seq<Byte>, m': seq<Byte>, es: seq<Entry>, e: Entry, total: nat, size: nat)
    requires (forall i | 0 <= i < |es| :: Fits(es[i])) && Fits(e) && total == HEADER_SIZE + |Print(es)| <= |m|
    requires m[0..2] == Half(MAGIC) && m[4..total] == Print(es)
    requires size == total + ENTRY_HEADER_SIZE + |e.data| <= |m'| && size <= UINT16_MAX
    requires m'[0..2] == m[0..2] && m'[2..4] == Half(size) && m'[4..size] == m[4..total] + PrintEntry(e)
    ensures HoldsList(m', es + [e])
  {
    PrintAppend(es, e);
  }
}
