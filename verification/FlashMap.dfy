/** Flash areas of the second-stage bootloader (src/bl2/src/flash_map.c): reads and read-modify-writes at
    any offset and length, over a driver that only accepts whole aligned items and program units. */
module FlashMap {
  import opened Align
  import opened Bytes

  const U32_LIMIT := 0x1_0000_0000

  /** `struct flash_area`, or the null pointer. */
  datatype Area = NoArea | Area(faOff: nat, faSize: nat)

  /** Truncation to 32 bits. */
  function W32(x: int): (r: nat)
    requires -U32_LIMIT <= x < 2 * U32_LIMIT
    ensures r < U32_LIMIT && (r == x || r == x - U32_LIMIT || r == x + U32_LIMIT)
  {
    if x < 0 then x + U32_LIMIT else if x >= U32_LIMIT then x - U32_LIMIT else x
  }

  /** `is_range_valid`: the 32-bit addition is checked for wrap-around before it is compared, so the test is
      the one over the integers. */
  function IsRangeValid(area: Area, off: nat, len: nat): (ok: bool)
    requires off < U32_LIMIT && len < U32_LIMIT
    requires area.Area? ==> area.faSize < U32_LIMIT
    ensures ok <==> area.Area? && off + len <= area.faSize
  {
    if area.NoArea? then false
    else
      var size := W32(off + len);
      if size < off then false
      else !(area.faSize < size)
  }

  /** The byte-copying loops of the source. */
  method CopyBytes(src: array<Byte>, from: nat, dst: array<Byte>, at: nat, n: nat)
    requires src != dst && from + n <= src.Length && at + n <= dst.Length
    modifies dst
    ensures forall k | 0 <= k < dst.Length :: dst[k] == if at <= k < at + n then src[from + (k - at)] else old(dst[k])
  {
    var j := 0;
    while j < n
      invariant j <= n
      invariant forall k | 0 <= k < dst.Length ::
                  dst[k] == if at <= k < at + j then src[from + (k - at)] else old(dst[k])
    {
      dst[at + j] := src[from + j];
      j := j + 1;
    }
  }

  /** The filling loops of a write: copy while neither the destination's limit nor the end of the source is
      reached; both indices advance together. */
  method Fill(dst: array<Byte>, i0: nat, limit: nat, src: seq<Byte>, s0: nat, n: nat) returns (i: nat, s: nat)
    requires i0 <= limit <= dst.Length && s0 <= n <= |src|
    modifies dst
    ensures i0 <= i <= limit && s - s0 == i - i0 && s <= n && (i == limit || s == n)
    ensures forall k | 0 <= k < dst.Length :: dst[k] == if i0 <= k < i then src[s0 + (k - i0)] else old(dst[k])
  {
    i, s := i0, s0;
    while i < limit && s < n
      invariant i0 <= i <= limit && s - s0 == i - i0 && s <= n
      invariant forall k | 0 <= k < dst.Length :: dst[k] == if i0 <= k < i then src[s0 + (k - i0)] else old(dst[k])
    {
      dst[i] := src[s];
      i, s := i + 1, s + 1;
    }
  }

  /** How a write ends: success, or the reason for the source's error return. A sanity check of the source
      that fails is named by its line. */
  datatype WriteResult = Written | BadRange | ReadFailed | ProgramFailed | Sanity(line: int)

  class Flash {
    const dataWidth: nat      // bytes of one data item of the driver
    const unit: nat           // FLASH_PROGRAM_UNIT
    const answers: nat -> int // what the driver returns, call by call; negative on failure
    var mem: seq<Byte>
    var calls: nat            // driver calls made so far

    constructor (dataWidth: nat, unit: nat, answers: nat -> int, mem: seq<Byte>)
      requires dataWidth == 1 || dataWidth == 2 || dataWidth == 4
      requires Aligned(unit, dataWidth) && 0 < unit < U32_LIMIT
      requires Aligned(|mem|, dataWidth) && |mem| <= U32_LIMIT
      ensures Valid() && this.mem == mem && this.answers == answers && calls == 0
    {
      this.dataWidth, this.unit, this.answers, this.mem, calls := dataWidth, unit, answers, mem, 0;
    }

    ghost predicate Valid()
      reads this
    {
      && (dataWidth == 1 || dataWidth == 2 || dataWidth == 4)
      && 0 < unit < U32_LIMIT && Aligned(unit, dataWidth)
      && Aligned(|mem|, dataWidth) && |mem| <= U32_LIMIT
    }

    /** The area lies in the device and starts at a program unit. */
    ghost predicate Holds(area: Area)
      reads this
    {
      area.Area? ==>
        && Aligned(area.faOff, unit)
        && area.faOff + area.faSize <= |mem| && area.faSize < U32_LIMIT
    }

    /** Where a transfer lies: area, offset and length, all inside the device. */
    ghost predicate InDevice(area: Area, off: nat, len: nat)
      reads this
    {
      Valid() && Holds(area) && area.Area? && off + len <= area.faSize
    }

    /** Since call number `from` the driver has been called, and `ok` tells whether all these calls
        succeeded. */
    ghost predicate Told(from: nat, ok: bool)
      reads this
    {
      from <= calls && (ok <==> AllWell(answers, from, calls))
    }

    /** The last driver call is the first one since number `from` that failed, with this result. */
    ghost predicate LastFailed(from: nat, ret: int)
      reads this
    {
      from < calls && ret == answers(calls - 1) < 0 && AllWell(answers, from, calls - 1)
    }

    // ---- Driver: accepts aligned requests only -------------------------------------------------

    /** ReadData of the driver: whole items from an address aligned to the item size. A failing read may
        leave anything in the part of the buffer it was given. */
    method ReadData(addr: nat, data: array<Byte>, at: nat, cnt: nat) returns (ret: int)
      requires Valid() && Aligned(addr, dataWidth)
      requires addr + cnt * dataWidth <= |mem| && at + cnt * dataWidth <= data.Length
      modifies data, this`calls
      ensures calls == old(calls) + 1 && ret == answers(old(calls))
      ensures forall i | 0 <= i < data.Length && !(at <= i < at + cnt * dataWidth) :: data[i] == old(data[i])
      ensures ret >= 0 ==> data[at..at + cnt * dataWidth] == mem[addr..addr + cnt * dataWidth]
    {
      ret := answers(calls);
      calls := calls + 1;
      var n := cnt * dataWidth;
      if ret >= 0 {
        forall k | 0 <= k < n {
          data[at + k] := mem[addr + k];
        }
      } else {
        var rubbish: seq<Byte> := *;
        if |rubbish| == n {
          forall k | 0 <= k < n {
            data[at + k] := rubbish[k];
          }
        }
      }
    }

    /** ProgramData of the driver: whole program units at a unit-aligned address. A failing call may leave
        anything in the units it was given and touches nothing else. */
    method ProgramData(addr: nat, data: seq<Byte>, cnt: nat) returns (ret: int)
      requires Valid() && Aligned(addr, unit) && Aligned(cnt * dataWidth, unit)
      requires cnt * dataWidth <= |data| && addr + cnt * dataWidth <= |mem|
      modifies this`mem, this`calls
      ensures calls == old(calls) + 1 && ret == answers(old(calls))
      ensures Valid() && |mem| == old(|mem|)
      ensures ret >= 0 ==> mem == Patch(old(mem), addr, data[..cnt * dataWidth])
      ensures KeptAround(old(mem), mem, addr, addr + cnt * dataWidth)
    {
      ret := answers(calls);
      calls := calls + 1;
      var n := cnt * dataWidth;
      if ret >= 0 {
        mem := Patch(mem, addr, data[..n]);
      } else {
        var rubbish: seq<Byte> := *;
        if |rubbish| == n {
          mem := Patch(mem, addr, rubbish);
        }
      }
    }

    // ---- Reads ---------------------------------------------------------------------------------

    /** The first `n` bytes of the buffer are the flash bytes from `base` on, and nothing past `len` has
        changed. */
    twostate predicate Filled(dst: array<Byte>, base: nat, n: nat, len: nat)
      reads this, dst
    {
      && n <= len <= dst.Length && base + n <= |mem|
      && (forall k | 0 <= k < n :: dst[k] == mem[base + k])
      && (forall k | len <= k < dst.Length :: dst[k] == old(dst[k]))
    }

    /** One item, read into a temporary buffer. */
    method ReadItem(addr: nat, temp: array<Byte>) returns (ret: int)
      requires Valid() && Aligned(addr, dataWidth) && addr < |mem| && temp.Length == 4
      modifies temp, this`calls
      ensures calls == old(calls) + 1 && ret == answers(old(calls))
      ensures addr + dataWidth <= |mem|
      ensures ret >= 0 ==> forall k | 0 <= k < dataWidth :: temp[k] == mem[addr + k]
    {
      ItemFits(addr, |mem|, dataWidth);
      ret := ReadData(addr, temp, 0, 1);
      if ret >= 0 {
        assert forall k | 0 <= k < dataWidth :: temp[k] == temp[0..dataWidth][k];
      }
    }

    /** The first item of a read whose offset is not aligned. */
    method ReadHead(area: Area, off: nat, dst: array<Byte>, len: nat) returns (ret: int, i: nat)
      requires InDevice(area, off, len) && len <= dst.Length && !Aligned(off, dataWidth)
      modifies dst, this`calls
      ensures calls == old(calls) + 1 && ret == answers(old(calls))
      ensures forall k | len <= k < dst.Length :: dst[k] == old(dst[k])
      ensures ret >= 0 ==> Filled(dst, area.faOff + off, i, len)
      ensures ret >= 0 ==> i == HeadLength(off, len, dataWidth)
    {
      var temp := new Byte[4];
      var alignedOff := FloorAlign(off, dataWidth);
      AlignedDivisor(area.faOff, unit, dataWidth);
      ModSum(area.faOff, alignedOff, dataWidth);
      i := 0;
      ret := ReadItem(area.faOff + alignedOff, temp);
      if ret < 0 {
        return;
      }
      i := if W32(off - alignedOff + len) >= dataWidth then dataWidth - (off - alignedOff) else len;
      CopyBytes(temp, off - alignedOff, dst, 0, i);
    }

    /** The last, partly wanted item of a read. */
    method ReadTail(area: Area, off: nat, dst: array<Byte>, len: nat, done: nat) returns (ret: int)
      requires InDevice(area, off, len) && len <= dst.Length
      requires done < len < done + dataWidth && Aligned(off + done, dataWidth)
      requires forall k | 0 <= k < done :: dst[k] == mem[area.faOff + off + k]
      modifies dst, this`calls
      ensures calls == old(calls) + 1 && ret == answers(old(calls))
      ensures forall k | len <= k < dst.Length :: dst[k] == old(dst[k])
      ensures ret >= 0 ==> Filled(dst, area.faOff + off, len, len)
    {
      var temp := new Byte[4];
      AlignedDivisor(area.faOff, unit, dataWidth);
      ModSum(area.faOff, off + done, dataWidth);
      ret := ReadItem(area.faOff + off + done, temp);
      if ret < 0 {
        return;
      }
      CopyBytes(temp, 0, dst, done, len - done);
    }

    /** The whole items of a read. */
    method ReadItems(area: Area, off: nat, dst: array<Byte>, len: nat, i: nat, itemNumber: nat) returns (ret: int)
      requires Valid() && Holds(area) && area.Area? && off + len <= area.faSize && len <= dst.Length
      requires Aligned(off + i, dataWidth) && i + itemNumber * dataWidth <= len
      requires forall k | 0 <= k < i :: dst[k] == mem[area.faOff + off + k]
      modifies dst, this`calls
      ensures calls == old(calls) + 1 && ret == answers(old(calls))
      ensures forall k | len <= k < dst.Length :: dst[k] == old(dst[k])
      ensures ret >= 0 ==> Filled(dst, area.faOff + off, i + itemNumber * dataWidth, len)
    {
      AlignedDivisor(area.faOff, unit, dataWidth);
      ModSum(area.faOff, off + i, dataWidth);
      ghost var n, item := itemNumber * dataWidth, area.faOff + off + i;
      ret := ReadData(area.faOff + off + i, dst, i, itemNumber);
      if ret >= 0 {
        assert dst[i..i + n] == mem[item..item + n];
        assert forall k | i <= k < i + n :: dst[k] == dst[i..i + n][k - i] == mem[item + (k - i)];
      }
    }

    /** Whole items and tail, behind the `i` bytes of the head. */
    method ReadRest(area: Area, off: nat, dst: array<Byte>, len: nat, i: nat) returns (ret: int)
      requires InDevice(area, off, len) && i < len <= dst.Length && Aligned(off + i, dataWidth)
      requires forall k | 0 <= k < i :: dst[k] == mem[area.faOff + off + k]
      modifies dst, this`calls
      ensures forall k | len <= k < dst.Length :: dst[k] == old(dst[k])
      ensures Told(old(calls), ret >= 0) && (ret < 0 ==> LastFailed(old(calls), ret))
      ensures ret >= 0 ==> Filled(dst, area.faOff + off, len, len)
    {
      var itemNumber := (len - i) / dataWidth;
      var done := i + itemNumber * dataWidth;
      DivMul(len - i, dataWidth);
      ret := 0;
      if itemNumber != 0 {
        ret := ReadItems(area, off, dst, len, i, itemNumber);
        if ret < 0 {
          return;
        }
      }
      if len - done != 0 {
        ModSum(FloorAlign(len - i, dataWidth), off + i, dataWidth);
        ret := ReadTail(area, off, dst, len, done);
      }
    }

    /** Head, whole items and tail, in this order; they tile the wanted range. */
    method ReadParts(area: Area, off: nat, dst: array<Byte>, len: nat) returns (ret: int)
      requires InDevice(area, off, len) && len <= dst.Length
      modifies dst, this`calls
      ensures forall k | len <= k < dst.Length :: dst[k] == old(dst[k])
      ensures Told(old(calls), ret >= 0) && (ret < 0 ==> LastFailed(old(calls), ret))
      ensures ret >= 0 ==> Filled(dst, area.faOff + off, len, len)
    {
      var i := 0;
      ret := 0;
      HeadAligns(off, len, dataWidth);
      if FloorAlign(off, dataWidth) != off {
        ret, i := ReadHead(area, off, dst, len);
        if ret < 0 {
          return;
        }
      }
      if len - i != 0 {
        ret := ReadRest(area, off, dst, len, i);
      }
    }

    /** `flash_area_read`: on success the first `len` bytes of the buffer are the flash bytes at `off`, for
        every offset and length, and it succeeds exactly when the range is valid and no driver call fails;
        a failing driver call ends it with the driver's result; every driver call is aligned (a precondition of `ReadData`). */
    method FlashAreaRead(area: Area, off: nat, dst: array<Byte>, len: nat) returns (ret: int)
      requires Valid() && Holds(area)
      requires off < U32_LIMIT && len < U32_LIMIT && len <= dst.Length
      modifies dst, this`calls
      ensures forall i | len <= i < dst.Length :: dst[i] == old(dst[i])
      ensures ret <= 0 && (ret == 0 <==> IsRangeValid(area, off, len) && AllWell(answers, old(calls), calls))
      ensures !IsRangeValid(area, off, len) ==> ret == -1 && dst[..] == old(dst[..]) && calls == old(calls)
      ensures old(calls) <= calls
      ensures IsRangeValid(area, off, len) && ret < 0 ==> LastFailed(old(calls), ret)
      ensures ret == 0 ==> dst[..len] == mem[area.faOff + off..area.faOff + off + len]
    {
      if !IsRangeValid(area, off, len) {
        return -1;
      }
      ret := ReadParts(area, off, dst, len);
      ret := if ret < 0 then ret else 0;
    }

    // ---- Writes --------------------------------------------------------------------------------

    /** Puts together the first unit when the offset is not aligned: old bytes, then source bytes, then, if
        the source ends in this unit, the old bytes behind it. */
    method BuildHead(off: nat, src: seq<Byte>, len: nat, addPadding: array<Byte>, lenPadding: array<Byte>, lenPad: nat)
      returns (r: WriteResult, written: nat)
      requires Valid() && len <= |src| && !Aligned(off, unit) && Geometry(off, len, unit, lenPad)
      requires addPadding != lenPadding && addPadding.Length == unit && lenPad <= lenPadding.Length
      modifies addPadding
      ensures r.Written? && written == HeadLength(off, len, unit)
      ensures addPadding[..] == old(addPadding[..])[..off - FloorAlign(off, unit)] + src[..written]
                              + if written == len then lenPadding[..lenPad] else []
    {
      var pad := off - FloorAlign(off, unit);
      var i, k;
      HeadFits(off, len, unit, lenPad);
      i, written := Fill(addPadding, pad, unit, src, 0, len);
      if written == len {
        i, k := Fill(addPadding, i, unit, lenPadding[..], 0, lenPad);
        if k != lenPad {
          return Sanity(307), written;
        }
      }
      if i != unit {
        return Sanity(313), written;
      }
      r := Written;
    }

    /** Puts together the last unit: the rest of the source, then the old bytes behind it. */
    method BuildTail(off: nat, src: seq<Byte>, len: nat, start: nat, alignedLen: nat,
                     addPadding: array<Byte>, lenPadding: array<Byte>, lenPad: nat)
      returns (r: WriteResult)
      requires Valid() && len <= |src| && Geometry(off, len, unit, lenPad)
      requires start < len < start + unit && Aligned(off + start, unit) && lenPad > 0
      requires alignedLen == off - FloorAlign(off, unit) + len + lenPad < U32_LIMIT
      requires addPadding != lenPadding && addPadding.Length == unit && lenPad <= lenPadding.Length
      modifies addPadding
      ensures r.Written? && len - start + lenPad == unit
      ensures addPadding[..] == src[start..len] + lenPadding[..lenPad]
    {
      TailFits(off, len, start, unit, lenPad);
      var i, written, k;
      i, written := Fill(addPadding, 0, unit, src, start, len);
      if written != len {
        return Sanity(354);
      }
      i, k := Fill(addPadding, i, unit, lenPadding[..], 0, lenPad);
      var writeSize := W32(off - FloorAlign(off, unit) + start + unit);
      if i != unit || k != lenPad || alignedLen != writeSize {
        return Sanity(364);
      }
      r := Written;
    }

    /** Programs one prepared unit: old bytes, then data, then old bytes. The device then differs only in the
        data. */
    method ProgramUnit(addr: nat, addPadding: array<Byte>, ghost pre: seq<Byte>, ghost d: seq<Byte>, ghost post: seq<Byte>)
      returns (ok: bool)
      requires Valid() && Aligned(addr, unit) && addr + unit <= |mem| && addPadding.Length == unit
      requires addPadding[..] == pre + d + post && Surrounds(mem, addr, pre, d, post)
      modifies this`mem, this`calls
      ensures calls == old(calls) + 1 && ok == (answers(old(calls)) >= 0)
      ensures Valid() && |mem| == old(|mem|)
      ensures ok ==> mem == Patch(old(mem), addr + |pre|, d)
      ensures KeptAround(old(mem), mem, addr, addr + unit)
    {
      UnitItems(unit, dataWidth);
      assert addPadding[..][..(unit / dataWidth) * dataWidth] == addPadding[..];
      PatchUnit(mem, addr, pre, d, post);
      var ret := ProgramData(addr, addPadding[..], unit / dataWidth);
      ok := ret >= 0;
    }

    /** Programming one prepared unit as a piece of a write that reaches up to `hi`. */
    method ProgramPart(addr: nat, addPadding: array<Byte>, ghost pre: seq<Byte>, ghost d: seq<Byte>, ghost post: seq<Byte>, ghost hi: nat)
      returns (r: WriteResult)
      requires Valid() && Aligned(addr, unit) && addr + unit <= hi <= |mem| && addPadding.Length == unit
      requires addPadding[..] == pre + d + post && Surrounds(mem, addr, pre, d, post)
      modifies this`mem, this`calls
      ensures Told(old(calls), r.Written?)
      ensures Valid() && Effect(old(mem), mem, r, addr + |pre|, d, addr, hi)
    {
      ghost var before := mem;
      assert |addPadding[..]| == |pre| + |d| + |post|;
      var ok := ProgramUnit(addr, addPadding, pre, d, post);
      r := if ok then Written else ProgramFailed;
      UnitEffect(before, mem, r, addr, unit, addr + |pre|, d, hi);
    }

    /** Where a write lies: it fits the area together with the padding behind it, which has been read. */
    ghost predicate Prepared(area: Area, off: nat, len: nat, lenPadding: array<Byte>, lenPad: nat)
      reads this, lenPadding
    {
      && InDevice(area, off, len) && Geometry(off, len, unit, lenPad)
      && off + len + lenPad <= area.faSize && lenPad <= lenPadding.Length
      && lenPadding[..lenPad] == mem[area.faOff + off + len..area.faOff + off + len + lenPad]
    }

    /** The first program unit of a write whose offset is not aligned. */
    method WriteHead(area: Area, off: nat, src: seq<Byte>, len: nat,
                     addPadding: array<Byte>, lenPadding: array<Byte>, lenPad: nat)
      returns (r: WriteResult, written: nat)
      requires Prepared(area, off, len, lenPadding, lenPad) && len <= |src| && !Aligned(off, unit)
      requires addPadding != lenPadding && addPadding.Length == unit
      requires addPadding[..off - FloorAlign(off, unit)] == mem[area.faOff + FloorAlign(off, unit)..area.faOff + off]
      modifies this`mem, this`calls, addPadding
      ensures Told(old(calls), r.Written?)
      ensures Valid() && written == HeadLength(off, len, unit)
      ensures Effect(old(mem), mem, r, area.faOff + off, src[..written],
                     area.faOff + FloorAlign(off, unit), area.faOff + off + len + lenPad)
    {
      var a := FloorAlign(off, unit);
      ModSum(area.faOff, a, unit);
      ghost var pre, pad := addPadding[..][..off - a], lenPadding[..lenPad];
      assert pre == addPadding[..off - a];
      r, written := BuildHead(off, src, len, addPadding, lenPadding, lenPad);
      if !r.Written? {
        return;
      }
      ghost var d := src[..written];
      HeadSurrounds(mem, area.faOff, off, len, unit, pre, d, pad);
      r := ProgramPart(area.faOff + a, addPadding, pre, d, if written == len then pad else [], area.faOff + off + len + lenPad);
    }

    /** The whole program units of a write: they are taken from the beginning of the source buffer. */
    method WriteMiddle(area: Area, off: nat, src: seq<Byte>, len: nat, written: nat) returns (r: WriteResult, size: nat)
      requires InDevice(area, off, len) && len <= |src| && written < len && Aligned(off + written, unit)
      modifies this`mem, this`calls
      ensures Told(old(calls), r.Written?)
      ensures Valid() && size == FloorAlign(len - written, unit)
      ensures Effect(old(mem), mem, r, area.faOff + off + written, src[..size],
                     area.faOff + off + written, area.faOff + off + len)
    {
      size := FloorAlign(len - written, unit);
      r := Written;
      if size > 0 {
        ModSum(area.faOff, off + written, unit);
        AlignedDivisor(size, unit, dataWidth);
        UnitItems(size, dataWidth);
        var ret := ProgramData(area.faOff + off + written, src, size / dataWidth);
        if ret < 0 {
          r := ProgramFailed;
        }
      }
    }

    /** The last program unit of a write that does not end on a unit boundary. */
    method WriteTail(area: Area, off: nat, src: seq<Byte>, len: nat, start: nat, alignedLen: nat,
                     addPadding: array<Byte>, lenPadding: array<Byte>, lenPad: nat)
      returns (r: WriteResult)
      requires Prepared(area, off, len, lenPadding, lenPad) && len <= |src| && lenPad > 0
      requires start < len < start + unit && Aligned(off + start, unit)
      requires alignedLen == off - FloorAlign(off, unit) + len + lenPad < U32_LIMIT
      requires addPadding != lenPadding && addPadding.Length == unit
      modifies this`mem, this`calls, addPadding
      ensures Told(old(calls), r.Written?)
      ensures Valid()
      ensures Effect(old(mem), mem, r, area.faOff + off + start, src[start..len],
                     area.faOff + off + start, area.faOff + off + len + lenPad)
    {
      ModSum(area.faOff, off + start, unit);
      r := BuildTail(off, src, len, start, alignedLen, addPadding, lenPadding, lenPad);
      if !r.Written? {
        return;
      }
      r := ProgramPart(area.faOff + off + start, addPadding, [], src[start..len], lenPadding[..lenPad], area.faOff + off + len + lenPad);
    }

    /** The last unit behind bytes `d` that have just been laid down at `at`. */
    method WriteTailBehind(area: Area, off: nat, src: seq<Byte>, len: nat, start: nat, alignedLen: nat,
                           addPadding: array<Byte>, lenPadding: array<Byte>, lenPad: nat,
                           ghost before: seq<Byte>, ghost at: nat, ghost d: seq<Byte>)
      returns (r: WriteResult)
      requires InDevice(area, off, len) && Geometry(off, len, unit, lenPad) && off + len + lenPad <= area.faSize
      requires len <= |src| && lenPad > 0 && start < len < start + unit && Aligned(off + start, unit)
      requires alignedLen == off - FloorAlign(off, unit) + len + lenPad < U32_LIMIT
      requires addPadding != lenPadding && addPadding.Length == unit && lenPad <= lenPadding.Length
      requires Laid(before, mem, at, d, area.faOff + off + start) && Behind(before, area.faOff + off + len, lenPadding[..lenPad])
      modifies this`mem, this`calls, addPadding
      ensures Told(old(calls), r.Written?)
      ensures Valid()
      ensures Effect(before, mem, r, at, d + src[start..len], at, area.faOff + off + len + lenPad)
    {
      ghost var body, end := mem, area.faOff + off + len;
      StillPrepared(before, mem, at, d, end, lenPad);
      r := WriteTail(area, off, src, len, start, alignedLen, addPadding, lenPadding, lenPad);
      EffectThen(before, body, mem, r, at, d, src[start..len], at, end + lenPad, at + |d|);
    }

    /** Whole units and last unit, after a head of `written` bytes. */
    method WriteRest(area: Area, off: nat, src: seq<Byte>, len: nat, written: nat, alignedLen: nat,
                     addPadding: array<Byte>, lenPadding: array<Byte>, lenPad: nat)
      returns (r: WriteResult)
      requires Prepared(area, off, len, lenPadding, lenPad) && len <= |src|
      requires written < len && Aligned(off + written, unit)
      requires alignedLen == off - FloorAlign(off, unit) + len + lenPad < U32_LIMIT
      requires addPadding != lenPadding && addPadding.Length == unit
      modifies this`mem, this`calls, addPadding
      ensures Told(old(calls), r.Written?)
      ensures Valid()
      ensures Effect(old(mem), mem, r, area.faOff + off + written, RestData(src, len, written, unit),
                     area.faOff + off + written, area.faOff + off + len + lenPad)
    {
      var size;
      ghost var before, at, end := mem, area.faOff + off + written, area.faOff + off + len;
      r, size := WriteMiddle(area, off, src, len, written);
      RestFits(off, len, written, unit, lenPad);
      ghost var middle, tail := src[..size], src[written + size..len];
      assert RestData(src, len, written, unit) == middle + tail;
      if !r.Written? {
        EffectFails(before, mem, at, middle, at, end, middle + tail, end + lenPad);
      } else if lenPad != 0 {
        ghost var c := calls;
        r := WriteTailBehind(area, off, src, len, written + size, alignedLen, addPadding, lenPadding, lenPad, before, at, middle);
        WellSplits(answers, old(calls), c, calls);
      } else {
        assert middle + tail == middle;
      }
    }

    /** The rest of a write behind a head that has just been laid down. */
    method WriteBehindHead(area: Area, off: nat, src: seq<Byte>, len: nat, written: nat, alignedLen: nat,
                           addPadding: array<Byte>, lenPadding: array<Byte>, lenPad: nat, ghost before: seq<Byte>)
      returns (r: WriteResult)
      requires InDevice(area, off, len) && Geometry(off, len, unit, lenPad) && off + len + lenPad <= area.faSize
      requires written < len <= |src| && Aligned(off + written, unit)
      requires alignedLen == off - FloorAlign(off, unit) + len + lenPad < U32_LIMIT
      requires addPadding != lenPadding && addPadding.Length == unit && lenPad <= lenPadding.Length
      requires Laid(before, mem, area.faOff + off, src[..written], area.faOff + off + written)
      requires Behind(before, area.faOff + off + len, lenPadding[..lenPad])
      modifies this`mem, this`calls, addPadding
      ensures Told(old(calls), r.Written?)
      ensures Valid()
      ensures Effect(before, mem, r, area.faOff + off, src[..written] + RestData(src, len, written, unit),
                     area.faOff + FloorAlign(off, unit), area.faOff + off + len + lenPad)
    {
      ghost var headed, at, end := mem, area.faOff + off, area.faOff + off + len;
      ghost var head, rest := src[..written], RestData(src, len, written, unit);
      StillPrepared(before, mem, at, head, end, lenPad);
      r := WriteRest(area, off, src, len, written, alignedLen, addPadding, lenPadding, lenPad);
      EffectThen(before, headed, mem, r, at, head, rest, area.faOff + FloorAlign(off, unit), end + lenPad, at + written);
    }

    /** The first unit, if the offset is not aligned. */
    method WriteStart(area: Area, off: nat, src: seq<Byte>, len: nat,
                      addPadding: array<Byte>, lenPadding: array<Byte>, lenPad: nat)
      returns (r: WriteResult, written: nat)
      requires Prepared(area, off, len, lenPadding, lenPad) && len <= |src|
      requires addPadding != lenPadding && addPadding.Length == unit
      requires addPadding[..off - FloorAlign(off, unit)] == mem[area.faOff + FloorAlign(off, unit)..area.faOff + off]
      modifies this`mem, this`calls, addPadding
      ensures Told(old(calls), r.Written?)
      ensures Valid() && written == HeadLength(off, len, unit) && (written == len || Aligned(off + written, unit))
      ensures Effect(old(mem), mem, r, area.faOff + off, src[..written],
                     area.faOff + FloorAlign(off, unit), area.faOff + off + len + lenPad)
    {
      HeadAligns(off, len, unit);
      r, written := Written, 0;
      if off - FloorAlign(off, unit) != 0 {
        r, written := WriteHead(area, off, src, len, addPadding, lenPadding, lenPad);
      } else {
        assert Patch(mem, area.faOff + off, src[..0]) == mem;
      }
    }

    /** The programming half of a write. */
    method WriteData(area: Area, off: nat, src: seq<Byte>, len: nat, alignedLen: nat,
                     addPadding: array<Byte>, lenPadding: array<Byte>, lenPad: nat)
      returns (r: WriteResult)
      requires Prepared(area, off, len, lenPadding, lenPad) && len <= |src|
      requires alignedLen == off - FloorAlign(off, unit) + len + lenPad < U32_LIMIT
      requires addPadding != lenPadding && addPadding.Length == unit
      requires addPadding[..off - FloorAlign(off, unit)] == mem[area.faOff + FloorAlign(off, unit)..area.faOff + off]
      modifies this`mem, this`calls, addPadding
      ensures Told(old(calls), r.Written?)
      ensures Valid()
      ensures Effect(old(mem), mem, r, area.faOff + off, StoredData(off, unit, src[..len]),
                     area.faOff + FloorAlign(off, unit), area.faOff + off + len + lenPad)
    {
      var written;
      ghost var before, at, end := mem, area.faOff + off, area.faOff + off + len;
      r, written := WriteStart(area, off, src, len, addPadding, lenPadding, lenPad);
      ghost var head, rest := src[..written], RestData(src, len, written, unit);
      StoredParts(off, unit, src, len);
      assert head + rest == StoredData(off, unit, src[..len]);
      if !r.Written? {
        EffectFails(before, mem, at, head, area.faOff + FloorAlign(off, unit), end + lenPad, head + rest, end + lenPad);
      } else if written < len {
        ghost var c := calls;
        r := WriteBehindHead(area, off, src, len, written, alignedLen, addPadding, lenPadding, lenPad, before);
        WellSplits(answers, old(calls), c, calls);
      } else {
        assert head + rest == head;
      }
    }

    /** Reads the bytes behind the data that share its last program unit. The lengths are computed in 32 bits;
        where the sum wraps around, the read is out of range. */
    method ReadBehind(area: Area, off: nat, len: nat, lenPadding: array<Byte>)
      returns (r: WriteResult, alignedLen: nat, lenPad: nat)
      requires InDevice(area, off, len) && lenPadding.Length == (if unit == 1 then 1 else unit - 1)
      modifies lenPadding, this`calls
      ensures r.Written? || r.BadRange? || r.ReadFailed?
      ensures old(calls) <= calls
      ensures r.Written? <==> WriteFits(area, off, len, unit) && AllWell(answers, old(calls), calls)
      ensures r.BadRange? ==> !WriteFits(area, off, len, unit)
      ensures r.Written? ==> Prepared(area, off, len, lenPadding, lenPad)
      ensures r.Written? ==> alignedLen == off - FloorAlign(off, unit) + len + lenPad < U32_LIMIT
    {
      var a := FloorAlign(off, unit);
      var pad := off - a;
      alignedLen := FloorAlign(W32(len + pad + unit - 1), unit);
      lenPad := W32(alignedLen - len - pad);
      PaddingIs(off, len, unit, alignedLen);
      if !IsRangeValid(area, a, alignedLen) {
        return BadRange, alignedLen, lenPad;
      }
      var ret := FlashAreaRead(area, off + len, lenPadding, lenPad);
      r := if ret != 0 then ReadFailed else Written;
    }

    /** Reads the bytes that share the first and the last program unit with the data. */
    method Prepare(area: Area, off: nat, len: nat, addPadding: array<Byte>, lenPadding: array<Byte>)
      returns (r: WriteResult, alignedLen: nat, lenPad: nat)
      requires Valid() && Holds(area) && off < U32_LIMIT && len < U32_LIMIT
      requires addPadding != lenPadding && addPadding.Length == unit
      requires lenPadding.Length == (if unit == 1 then 1 else unit - 1)
      modifies addPadding, lenPadding, this`calls
      ensures r.Written? || r.BadRange? || r.ReadFailed?
      ensures old(calls) <= calls
      ensures r.Written? <==> WriteFits(area, off, len, unit) && AllWell(answers, old(calls), calls)
      ensures r.BadRange? ==> !WriteFits(area, off, len, unit)
      ensures r.Written? ==> Prepared(area, off, len, lenPadding, lenPad)
      ensures r.Written? ==> alignedLen == off - FloorAlign(off, unit) + len + lenPad < U32_LIMIT
      ensures r.Written? ==> addPadding[..off - FloorAlign(off, unit)] == mem[area.faOff + FloorAlign(off, unit)..area.faOff + off]
    {
      var a := FloorAlign(off, unit);
      if !IsRangeValid(area, off, len) {
        return BadRange, 0, 0;
      }
      var ret := FlashAreaRead(area, a, addPadding, off - a);
      if ret != 0 {
        return ReadFailed, 0, 0;
      }
      ghost var c := calls;
      r, alignedLen, lenPad := ReadBehind(area, off, len, lenPadding);
      WellSplits(answers, old(calls), c, calls);
    }

    /** `flash_area_write`. It succeeds exactly when the write fits and no driver call fails: a failing result
        comes from the range or from the driver. A successful call leaves exactly `StoredData` at the offset and changes nothing
        else; a failing call can only have disturbed the program units it addresses; the sanity checks of the
        source never fail, and every driver call is aligned (preconditions of the driver). */
    method FlashAreaWrite(area: Area, off: nat, src: seq<Byte>, len: nat) returns (r: WriteResult)
      requires Valid() && Holds(area) && off < U32_LIMIT && len < U32_LIMIT && len <= |src|
      modifies this`mem, this`calls
      ensures Valid() && |mem| == old(|mem|) && old(calls) <= calls
      ensures !r.Sanity?
      ensures r.Written? <==> WriteFits(area, off, len, unit) && AllWell(answers, old(calls), calls)
      ensures r.BadRange? ==> !WriteFits(area, off, len, unit)
      ensures r.ProgramFailed? ==> WriteFits(area, off, len, unit)
      ensures r.BadRange? || r.ReadFailed? ==> mem == old(mem)
      ensures r.Written? ==> mem == Patch(old(mem), area.faOff + off, StoredData(off, unit, src[..len]))
      ensures r.ProgramFailed? ==> SameOutside(old(mem), mem, area.faOff + FloorAlign(off, unit), area.faOff + off + len + unit - 1)
    {
      var addPadding := new Byte[unit];
      var lenPadding := new Byte[if unit == 1 then 1 else unit - 1];
      var alignedLen, lenPad;
      r, alignedLen, lenPad := Prepare(area, off, len, addPadding, lenPadding);
      if !r.Written? {
        return;
      }
      ghost var before := mem;
      r := WriteData(area, off, src, len, alignedLen, addPadding, lenPadding, lenPad);
      if r.ProgramFailed? {
        KeptOutside(before, mem, area.faOff + FloorAlign(off, unit), area.faOff + off + len + lenPad, area.faOff + off + len + unit - 1);
      }
    }
  }

  /** Every driver call numbered from `from` to below `to` succeeds. */
  ghost predicate AllWell(answers: nat -> int, from: nat, to: nat) {
    forall k: nat | from <= k < to :: answers(k) >= 0
  }

  lemma WellSplits(answers: nat -> int, a: nat, b: nat, c: nat)
    requires a <= b <= c
    ensures AllWell(answers, a, c) <==> AllWell(answers, a, b) && AllWell(answers, b, c)
  {
  }

  /** The end of the last program unit that a write up to `end` touches. */
  function UnitEnd(end: nat, unit: nat): nat
    requires unit > 0
  {
    FloorAlign(end + unit - 1, unit)
  }

  /** A write fits when its last program unit ends inside the area, and the aligned length can be computed in
      32 bits. */
  ghost predicate WriteFits(area: Area, off: nat, len: nat, unit: nat)
    requires unit > 0
  {
    area.Area? && UnitEnd(off + len, unit) <= area.faSize && off - FloorAlign(off, unit) + len + unit - 1 < U32_LIMIT
  }

  /** With a unit that divides the address space, as every power of two does, the second condition says
      nothing new: where the aligned length would not fit 32 bits, the last unit does not fit any area. */
  lemma FitsByRange(area: Area, off: nat, len: nat, unit: nat)
    requires 0 < unit && Aligned(U32_LIMIT, unit) && (area.Area? ==> area.faSize < U32_LIMIT)
    ensures WriteFits(area, off, len, unit) <==> area.Area? && UnitEnd(off + len, unit) <= area.faSize
  {
    if off - FloorAlign(off, unit) + len + unit - 1 >= U32_LIMIT && UnitEnd(off + len, unit) < U32_LIMIT {
      AlignedGap(UnitEnd(off + len, unit), U32_LIMIT, unit);
    }
  }

  /** What a successful write of `data` leaves in the flash. The whole units that follow an unaligned head are
      taken from the beginning of the data, not from behind the head (src/bl2/src/flash_map.c:338). */
  function StoredData(off: nat, unit: nat, data: seq<Byte>): (r: seq<Byte>)
    requires unit > 0
    ensures |r| == |data|
  {
    var head := HeadLength(off, |data|, unit);
    var size := FloorAlign(|data| - head, unit);
    data[..head] + data[..size] + data[head + size..]
  }

  /** Data of which every write at this offset and length reaches the flash unchanged. */
  ghost predicate DeliversAll(off: nat, len: nat, unit: nat)
    requires unit > 0
  {
    forall data: seq<Byte> | |data| == len :: StoredData(off, unit, data) == data
  }

  /** A write delivers its data, whatever the data, exactly when the offset is aligned or no whole unit
      follows the head. */
  lemma WriteDelivers(off: nat, len: nat, unit: nat)
    requires unit > 0
    ensures DeliversAll(off, len, unit) <==> Aligned(off, unit) || len - HeadLength(off, len, unit) < unit
  {
    var head := HeadLength(off, len, unit);
    var size := FloorAlign(len - head, unit);
    if len - head < unit {
      ModSelf(unit);
      FloorUnique(len - head, unit, 0);
    } else if !Aligned(off, unit) {
      var data: seq<Byte> := seq(len, i => if i == head then 1 else 0);
      assert StoredData(off, unit, data)[head] == data[0];
      assert !DeliversAll(off, len, unit);
    }
  }

  /** For one buffer: the flash holds the data exactly when the units behind the head repeat the beginning. */
  lemma WriteKeeps(off: nat, unit: nat, data: seq<Byte>)
    requires unit > 0
    ensures var head := HeadLength(off, |data|, unit);
            var size := FloorAlign(|data| - head, unit);
            StoredData(off, unit, data) == data <==> data[..size] == data[head..head + size]
  {
    var head := HeadLength(off, |data|, unit);
    var size := FloorAlign(|data| - head, unit);
    var stored := StoredData(off, unit, data);
    assert stored[head..head + size] == data[..size];
    assert data == data[..head] + data[head..head + size] + data[head + size..];
  }

  /** Six bytes written at offset 3 of four-byte units: the unit at offset 4 receives the wrong bytes. */
  lemma WriteMisplaces()
    ensures StoredData(3, 4, [10, 11, 12, 13, 14, 15]) == [10, 10, 11, 12, 13, 15]
  {
  }

  /** What follows the head: whole units from the beginning of the source, then its last bytes. */
  function RestData(src: seq<Byte>, len: nat, written: nat, unit: nat): (r: seq<Byte>)
    requires unit > 0 && written <= len <= |src|
    ensures |r| == len - written
  {
    src[..FloorAlign(len - written, unit)] + src[written + FloorAlign(len - written, unit)..len]
  }

  /** Head first, then the rest, is the stored data as a whole. */
  lemma StoredParts(off: nat, unit: nat, src: seq<Byte>, len: nat)
    requires unit > 0 && len <= |src|
    ensures var head := HeadLength(off, len, unit);
            src[..head] + RestData(src, len, head, unit) == StoredData(off, unit, src[..len])
  {
    var head := HeadLength(off, len, unit);
    var size := FloorAlign(len - head, unit);
    var data := src[..len];
    assert src[..head] == data[..head] && src[..size] == data[..size] && src[head + size..len] == data[head + size..];
    assert StoredData(off, unit, data) == data[..head] + (data[..size] + data[head + size..]);
  }

  /** What a piece of a write does to the device: it lays down `d` at `at`, or it fails and may have disturbed
      the bytes from `lo` to `hi`. */
  ghost predicate Effect(m: seq<Byte>, m': seq<Byte>, r: WriteResult, at: nat, d: seq<Byte>, lo: nat, hi: nat) {
    && lo <= at && at + |d| <= hi <= |m| == |m'|
    && (r.Written? || r.ProgramFailed?)
    && (r.Written? ==> m' == Patch(m, at, d))
    && (r.ProgramFailed? ==> KeptAround(m, m', lo, hi))
  }

  /** The effect of programming one unit. */
  lemma UnitEffect(m: seq<Byte>, m': seq<Byte>, r: WriteResult, addr: nat, unit: nat, at: nat, d: seq<Byte>, hi: nat)
    requires addr <= at && at + |d| <= addr + unit <= hi <= |m| == |m'| && (r.Written? || r.ProgramFailed?)
    requires r.Written? ==> m' == Patch(m, at, d)
    requires KeptAround(m, m', addr, addr + unit)
    ensures Effect(m, m', r, at, d, addr, hi)
  {
    Widen(m, m', addr, addr + unit, addr, hi);
  }

  /** A second piece follows a first one that succeeded. */
  lemma EffectThen(m: seq<Byte>, m1: seq<Byte>, m2: seq<Byte>, r: WriteResult, at: nat, d: seq<Byte>, e: seq<Byte>,
                   lo: nat, hi: nat, lo1: nat)
    requires lo <= lo1 && lo <= at && at + |d| + |e| <= hi <= |m| && m1 == Patch(m, at, d)
    requires Effect(m1, m2, r, at + |d|, e, lo1, hi)
    ensures Effect(m, m2, r, at, d + e, lo, hi)
  {
    if r.Written? {
      PatchTwice(m, at, d, e);
    } else {
      Widen(m1, m2, lo1, hi, lo, hi);
      PatchKeeps(m, at, d, lo, hi, hi);
    }
  }

  /** A failing piece ends the write. */
  lemma EffectFails(m: seq<Byte>, m': seq<Byte>, at: nat, d: seq<Byte>, lo: nat, hi: nat, e: seq<Byte>, hi': nat)
    requires Effect(m, m', ProgramFailed, at, d, lo, hi) && hi <= hi' <= |m| && at + |e| <= hi'
    ensures Effect(m, m', ProgramFailed, at, e, lo, hi')
  {
    Widen(m, m', lo, hi, lo, hi');
  }

  /** `d` has just been laid down at `at` and ends at `next`. */
  ghost predicate Laid(m: seq<Byte>, m': seq<Byte>, at: nat, d: seq<Byte>, next: nat) {
    next == at + |d| <= |m| && m' == Patch(m, at, d)
  }

  /** The bytes at `end` are these. */
  ghost predicate Behind(m: seq<Byte>, end: nat, pad: seq<Byte>) {
    end + |pad| <= |m| && m[end..end + |pad|] == pad
  }

  /** The bytes read behind the data are still those of the device. */
  lemma StillPrepared(m: seq<Byte>, m': seq<Byte>, at: nat, d: seq<Byte>, end: nat, n: nat)
    requires at + |d| <= end && end + n <= |m| && m' == Patch(m, at, d)
    ensures |m'| == |m| && m'[end..end + n] == m[end..end + n]
  {
    PatchKeeps(m, at, d, at, end, end + n);
  }

  /** Laying down bytes changes nothing around them, wherever one looks. */
  lemma PatchKeeps(m: seq<Byte>, at: nat, d: seq<Byte>, lo: nat, end: nat, hi: nat)
    requires lo <= at && at + |d| <= end <= hi <= |m|
    ensures KeptAround(m, Patch(m, at, d), lo, hi)
    ensures Patch(m, at, d)[end..hi] == m[end..hi]
  {
  }

  lemma Widen(m: seq<Byte>, m': seq<Byte>, lo: nat, hi: nat, lo': nat, hi': nat)
    requires KeptAround(m, m', lo, hi) && lo' <= lo && hi <= hi' <= |m|
    ensures KeptAround(m, m', lo', hi')
  {
    assert m'[..lo'] == m'[..lo][..lo'] && m[..lo'] == m[..lo][..lo'];
    assert m'[hi'..] == m'[hi..][hi' - hi..] && m[hi'..] == m[hi..][hi' - hi..];
  }

  /** The padding computed in 32 bits ends the last unit, or the sum wrapped around and the padding reaches
      past every area. */
  lemma PaddingIs(off: nat, len: nat, unit: nat, alignedLen: nat)
    requires 0 < unit < U32_LIMIT && off + len < U32_LIMIT
    requires alignedLen == FloorAlign(W32(len + (off - FloorAlign(off, unit)) + unit - 1), unit)
    ensures var pad := off - FloorAlign(off, unit);
            var lenPad := W32(alignedLen - len - pad);
            && lenPad < unit
            && (off + len + lenPad < U32_LIMIT ==> alignedLen == pad + len + lenPad && Geometry(off, len, unit, lenPad))
            && (if pad + len + unit - 1 < U32_LIMIT then FloorAlign(off, unit) + alignedLen == UnitEnd(off + len, unit)
                else off + len + lenPad >= U32_LIMIT)
            && UnitEnd(off + len, unit) >= off + len
  {
    var a := FloorAlign(off, unit);
    var v := len + (off - a) + unit - 1;
    if v < U32_LIMIT {
      ModSum(a, alignedLen, unit);
      FloorUnique(off + len + unit - 1, unit, a + alignedLen);
    } else {
      ModSelf(unit);
      FloorUnique(W32(v), unit, 0);
    }
  }

  /** Behind the whole units the rest starts aligned, and it is empty exactly when no padding is needed. */
  lemma RestFits(off: nat, len: nat, written: nat, unit: nat, lenPad: nat)
    requires Geometry(off, len, unit, lenPad) && written < len && Aligned(off + written, unit)
    ensures var start := written + FloorAlign(len - written, unit);
            && start <= len < start + unit && Aligned(off + start, unit)
            && (start < len <==> lenPad > 0)
  {
    var size := FloorAlign(len - written, unit);
    ModSum(off + written, size, unit);
    if written + size == len && lenPad > 0 {
      AlignedGap(off + len, off + len + lenPad, unit);
    }
    if lenPad == 0 && written + size < len {
      AlignedGap(off + written + size, off + len, unit);
    }
  }

  /** The device holds `pre` at `addr` and `post` behind the place of `d`. */
  ghost predicate Surrounds(m: seq<Byte>, addr: nat, pre: seq<Byte>, d: seq<Byte>, post: seq<Byte>) {
    var at := addr + |pre|;
    at + |d| + |post| <= |m| && m[addr..at] == pre && m[at + |d|..at + |d| + |post|] == post
  }

  /** The first unit of an unaligned write: old bytes, data, and behind the end of the data old bytes again. */
  lemma HeadSurrounds(m: seq<Byte>, base: nat, off: nat, len: nat, unit: nat, pre: seq<Byte>, d: seq<Byte>, pad: seq<Byte>)
    requires Geometry(off, len, unit, |pad|) && !Aligned(off, unit) && base + off + len + |pad| <= |m|
    requires pre == m[base + FloorAlign(off, unit)..base + off] && |d| == HeadLength(off, len, unit)
    requires pad == m[base + off + len..base + off + len + |pad|]
    ensures base + FloorAlign(off, unit) + unit <= base + off + len + |pad|
    ensures Surrounds(m, base + FloorAlign(off, unit), pre, d, if |d| == len then pad else [])
  {
    HeadFits(off, len, unit, |pad|);
    AlignedGap(FloorAlign(off, unit), off + len + |pad|, unit);
  }

  /** Programming data together with the old bytes around it changes the data only. */
  lemma PatchUnit(m: seq<Byte>, addr: nat, pre: seq<Byte>, d: seq<Byte>, post: seq<Byte>)
    requires Surrounds(m, addr, pre, d, post)
    ensures Patch(m, addr, pre + d + post) == Patch(m, addr + |pre|, d)
  {
    var at := addr + |pre|;
    var end := at + |d|;
    assert m[..at] == m[..addr] + pre;
    assert m[end..] == post + m[end + |post|..];
  }

  /** The last unit starts at the rest of the data, and data and padding fill it. */
  lemma TailFits(off: nat, len: nat, start: nat, unit: nat, lenPad: nat)
    requires Geometry(off, len, unit, lenPad) && lenPad > 0
    requires start < len < start + unit && Aligned(off + start, unit)
    ensures len - start + lenPad == unit
  {
    ModSelf(unit);
    ModSum(off + start, unit, unit);
    if off + len + lenPad < off + start + unit {
      AlignedGap(off + start, off + len + lenPad, unit);
    } else if off + start + unit < off + len + lenPad {
      AlignedGap(off + start + unit, off + len + lenPad, unit);
    }
  }

  /** The padding behind a write: from the end of the data to the end of its last program unit. */
  ghost predicate Geometry(off: nat, len: nat, unit: nat, lenPad: nat) {
    unit > 0 && lenPad < unit && Aligned(off + len + lenPad, unit)
  }

  /** The data ends in the first unit exactly when the padding behind it fills that unit up. */
  lemma HeadFits(off: nat, len: nat, unit: nat, lenPad: nat)
    requires Geometry(off, len, unit, lenPad) && !Aligned(off, unit)
    ensures var pad := off - FloorAlign(off, unit);
            && 0 < pad < unit
            && (len <= unit - pad ==> pad + len + lenPad == unit)
            && HeadLength(off, len, unit) == (if len <= unit - pad then len else unit - pad)
  {
    var a := FloorAlign(off, unit);
    ModSelf(unit);
    ModSum(a, unit, unit);
    if off + len <= a + unit {
      if off + len + lenPad < a + unit {
        AlignedGap(a, off + len + lenPad, unit);
      } else if a + unit < off + len + lenPad {
        AlignedGap(a + unit, off + len + lenPad, unit);
      }
    }
  }

  lemma UnitItems(n: nat, d: nat)
    requires Aligned(n, d)
    ensures (n / d) * d == n
  {
    DivMul(n, d);
    FloorUnique(n, d, n);
  }

  /** How many bytes the partial first item of a transfer contributes. */
  function HeadLength(off: nat, len: nat, a: nat): (n: nat)
    requires a > 0
    ensures n <= len
  {
    if Aligned(off, a) then 0
    else if off - FloorAlign(off, a) + len >= a then a - (off - FloorAlign(off, a)) else len
  }

  /** After the head either everything is transferred or the rest starts aligned. */
  lemma HeadAligns(off: nat, len: nat, a: nat)
    requires a > 0
    ensures var n := HeadLength(off, len, a);
            n == len || Aligned(off + n, a)
    ensures Aligned(off, a) <==> FloorAlign(off, a) == off
  {
    ModSelf(a);
    ModSum(FloorAlign(off, a), a, a);
    if Aligned(off, a) {
      FloorUnique(off, a, off);
    }
  }

  /** An aligned item that starts inside an aligned device lies inside it. */
  lemma ItemFits(addr: nat, size: nat, a: nat)
    requires Aligned(addr, a) && Aligned(size, a) && addr < size
    ensures addr + a <= size
  {
    AlignedGap(addr, size, a);
  }

  /** Nothing before `lo` or from `hi` on has changed. */
  ghost predicate KeptAround(m: seq<Byte>, m': seq<Byte>, lo: nat, hi: nat) {
    lo <= hi <= |m| == |m'| && m'[..lo] == m[..lo] && m'[hi..] == m[hi..]
  }

  lemma KeptOutside(m: seq<Byte>, m': seq<Byte>, lo: nat, hi: nat, hi': nat)
    requires KeptAround(m, m', lo, hi) && hi <= hi'
    ensures SameOutside(m, m', lo, hi')
  {
    forall a | 0 <= a < |m| && !(lo <= a < hi')
      ensures m'[a] == m[a]
    {
      if a < lo {
        assert m'[a] == m'[..lo][a] && m[a] == m[..lo][a];
      } else {
        assert m'[a] == m'[hi..][a - hi] && m[a] == m[hi..][a - hi];
      }
    }
  }

  ghost predicate SameOutside(m: seq<Byte>, m': seq<Byte>, lo: int, hi: int) {
    |m'| == |m| && forall a | 0 <= a < |m| && !(lo <= a < hi) :: m'[a] == m[a]
  }
}
