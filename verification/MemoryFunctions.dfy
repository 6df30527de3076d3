/** memcpy and memset of the secure firmware (src/secure_fw/shared/crt_memcpy.c, crt_memset.c): bytes up to a word
    boundary, then whole words, then bytes, against the plain byte loops of sections 7.24.2.1 and 7.24.6.1 of
    ISO/IEC 9899:2011. */
module MemoryFunctions {
  import opened Bytes
  import opened SlotMask

  /** A 32-bit word as its four bytes, least significant first. */
  datatype Quad = Quad(b0: Byte, b1: Byte, b2: Byte, b3: Byte)

  function QuadBytes(w: Quad): (r: seq<Byte>)
    ensures |r| == 4
  {
    [w.b0, w.b1, w.b2, w.b3]
  }

  class Memory {
    var mem: seq<Byte>

    constructor (mem: seq<Byte>)
      ensures this.mem == mem
    {
      this.mem := mem;
    }

    method StoreByte(addr: nat, b: Byte)
      requires addr < |mem|
      modifies this
      ensures mem == Patch(old(mem), addr, [b])
    {
      mem := mem[addr := b];
    }

    /** Word accesses are made at multiples of four only. */
    method LoadWord(addr: nat) returns (w: Quad)
      requires addr % 4 == 0 && addr + 4 <= |mem|
      ensures QuadBytes(w) == mem[addr..addr + 4]
    {
      w := Quad(mem[addr], mem[addr + 1], mem[addr + 2], mem[addr + 3]);
    }

    method StoreWord(addr: nat, w: Quad)
      requires addr % 4 == 0 && addr + 4 <= |mem|
      modifies this
      ensures mem == Patch(old(mem), addr, QuadBytes(w))
    {
      mem := mem[addr := w.b0][addr + 1 := w.b1][addr + 2 := w.b2][addr + 3 := w.b3];
    }

    /** One byte of a copy of which `done` bytes are made. */
    method CopyByte(dest: nat, src: nat, done: nat, ghost m: seq<Byte>)
      requires Apart(dest, src, done + 1, |m|) && mem == Copy(m, dest, src, done)
      modifies this
      ensures mem == Copy(m, dest, src, done + 1)
    {
      CopyMore(m, dest, src, done, 1);
      var b := mem[src + done];
      assert [b] == mem[src + done..src + done + 1];
      StoreByte(dest + done, b);
    }

    /** One word of it. */
    method CopyWord(dest: nat, src: nat, done: nat, ghost m: seq<Byte>)
      requires Apart(dest, src, done + 4, |m|) && mem == Copy(m, dest, src, done)
      requires (dest + done) % 4 == 0 && (src + done) % 4 == 0
      modifies this
      ensures mem == Copy(m, dest, src, done + 4)
    {
      CopyMore(m, dest, src, done, 4);
      var w := LoadWord(src + done);
      StoreWord(dest + done, w);
    }

    /** The byte loop before the words: up to the end, or to where both addresses are aligned. */
    method CopyHead(dest: nat, src: nat, n: nat) returns (done: nat)
      requires Apart(dest, src, n, |mem|)
      modifies this
      ensures done <= n && mem == Copy(old(mem), dest, src, done)
      ensures done < n ==> (dest + done) % 4 == 0 && (src + done) % 4 == 0
    {
      ghost var m := mem;
      done := 0;
      CopyNothing(m, dest, src);
      while done < n && ((dest + done) % 4 != 0 || (src + done) % 4 != 0)
        invariant done <= n && mem == Copy(m, dest, src, done)
      {
        CopyByte(dest, src, done, m);
        done := done + 1;
      }
    }

    /** The word loop. */
    method CopyWords(dest: nat, src: nat, n: nat, from: nat, ghost m: seq<Byte>) returns (done: nat)
      requires Apart(dest, src, n, |m|) && from <= n && mem == Copy(m, dest, src, from)
      requires from < n ==> (dest + from) % 4 == 0 && (src + from) % 4 == 0
      modifies this
      ensures from <= done <= n < done + 4 && mem == Copy(m, dest, src, done)
    {
      done := from;
      while n - done >= 4
        invariant from <= done <= n && mem == Copy(m, dest, src, done)
        invariant done < n ==> (dest + done) % 4 == 0 && (src + done) % 4 == 0
      {
        CopyWord(dest, src, done, m);
        done := done + 4;
      }
    }

    /** `memcpy` on ranges that do not overlap, for every alignment of both: the bytes of the source range as it
        was, in the destination range, and nothing else changed. */
    method Memcpy(dest: nat, src: nat, n: nat) returns (r: nat)
      requires Apart(dest, src, n, |mem|)
      modifies this
      ensures r == dest && mem == Copy(old(mem), dest, src, n)
    {
      ghost var m := mem;
      var done := CopyHead(dest, src, n);
      done := CopyWords(dest, src, n, done, m);
      while done < n
        invariant done <= n && mem == Copy(m, dest, src, done)
      {
        CopyByte(dest, src, done, m);
        done := done + 1;
      }
      r := dest;
    }

    /** One more byte behind those already set. */
    method SetByte(s: nat, done: nat, b: Byte, ghost m: seq<Byte>, ghost d: seq<Byte>, ghost j: nat)
      requires s + done < |m| && |d| + j == done && mem == Patch(m, s, d + Repeat(b, j))
      modifies this
      ensures mem == Patch(m, s, d + Repeat(b, j + 1))
    {
      PatchTwice(m, s, d + Repeat(b, j), [b]);
      OneByteMore(d, b, j);
      StoreByte(s + done, b);
    }

    /** One more word. */
    method SetWord(s: nat, done: nat, w: Quad, ghost m: seq<Byte>, ghost d: seq<Byte>, ghost k: nat)
      requires s + done + 4 <= |m| && |d| + 4 * k == done && (s + done) % 4 == 0 && mem == Patch(m, s, d + RepeatWord(w, k))
      modifies this
      ensures mem == Patch(m, s, d + RepeatWord(w, k + 1))
    {
      PatchTwice(m, s, d + RepeatWord(w, k), QuadBytes(w));
      OneWordMore(d, w, k);
      StoreWord(s + done, w);
    }

    /** The byte loop before the words. */
    method SetHead(s: nat, b: Byte, n: nat) returns (done: nat)
      requires s + n <= |mem|
      modifies this
      ensures done == Head(s, n) && mem == Patch(old(mem), s, Repeat(b, done))
    {
      ghost var m := mem;
      done := 0;
      assert Patch(m, s, [] + Repeat(b, 0)) == m;
      while done < n && (s + done) % 4 != 0
        invariant done <= Head(s, n) && mem == Patch(m, s, [] + Repeat(b, done))
      {
        HeadIsFirst(s, n, done);
        SetByte(s, done, b, m, [], done);
        done := done + 1;
      }
      HeadIsFirst(s, n, done);
      assert [] + Repeat(b, done) == Repeat(b, done);
    }

    /** The word loop. */
    method SetWords(s: nat, w: Quad, n: nat, from: nat, ghost m: seq<Byte>, ghost d: seq<Byte>) returns (done: nat)
      requires s + n <= |m| && |d| == from <= n && mem == Patch(m, s, d) && (from < n ==> (s + from) % 4 == 0)
      modifies this
      ensures done == from + 4 * ((n - from) / 4) && mem == Patch(m, s, d + RepeatWord(w, (n - from) / 4))
    {
      done := from;
      ghost var k: nat := 0;
      assert d + RepeatWord(w, 0) == d;
      while n - done >= 4
        invariant from + 4 * k == done <= n && (done < n ==> (s + done) % 4 == 0)
        invariant mem == Patch(m, s, d + RepeatWord(w, k))
      {
        SetWord(s, done, w, m, d, k);
        done := done + 4;
        k := k + 1;
      }
      assert k == (n - from) / 4;
    }

    /** The byte loop behind the words. */
    method SetTail(s: nat, b: Byte, n: nat, from: nat, ghost m: seq<Byte>, ghost d: seq<Byte>)
      requires s + n <= |m| && |d| == from <= n && mem == Patch(m, s, d)
      modifies this
      ensures mem == Patch(m, s, d + Repeat(b, n - from))
    {
      var done := from;
      ghost var j: nat := 0;
      assert d + Repeat(b, 0) == d;
      while done < n
        invariant from + j == done <= n && mem == Patch(m, s, d + Repeat(b, j))
      {
        SetByte(s, done, b, m, d, j);
        done := done + 1;
        j := j + 1;
      }
    }

    /** The three loops of `memset`. */
    method SetAll(s: nat, b: Byte, w: Quad, n: nat)
      requires s + n <= |mem|
      modifies this
      ensures mem == Patch(old(mem), s, FilledWith(s, b, w, n))
    {
      ghost var m := mem;
      var h := SetHead(s, b, n);
      var done := SetWords(s, w, n, h, m, Repeat(b, h));
      SetTail(s, b, n, done, m, Repeat(b, h) + RepeatWord(w, (n - h) / 4));
    }

    /** `memset`, for every alignment: what it leaves in the range is `Filled`. */
    method Memset(s: nat, c: int, n: nat) returns (r: nat)
      requires s + n <= |mem|
      modifies this
      ensures r == s && mem == Patch(old(mem), s, Filled(s, c, n))
    {
      SetAll(s, Bits(c).b0, Pattern(c), n);
      r := s;
    }
  }

  /** Two ranges of memory that do not overlap. */
  predicate Apart(dest: nat, src: nat, n: nat, size: nat) {
    dest + n <= size && src + n <= size && (dest + n <= src || src + n <= dest)
  }

  /** The byte loop: source bytes, as they were, in the destination range. */
  function Copy(m: seq<Byte>, dest: nat, src: nat, n: nat): (r: seq<Byte>)
    requires Apart(dest, src, n, |m|)
    ensures |r| == |m|
  {
    Patch(m, dest, m[src..src + n])
  }

  lemma CopyNothing(m: seq<Byte>, dest: nat, src: nat)
    requires dest <= |m| && src <= |m|
    ensures Apart(dest, src, 0, |m|) && Copy(m, dest, src, 0) == m
  {
  }

  /** After `a` bytes the next `b` source bytes are still unchanged, and storing them copies `a + b` bytes. */
  lemma CopyMore(m: seq<Byte>, dest: nat, src: nat, a: nat, b: nat)
    requires Apart(dest, src, a + b, |m|)
    ensures var m1 := Copy(m, dest, src, a);
            && m1[src + a..src + a + b] == m[src + a..src + a + b]
            && Patch(m1, dest + a, m[src + a..src + a + b]) == Copy(m, dest, src, a + b)
  {
    SourceKept(m, dest, src, a, b);
    JoinSlices(m, src, src + a, src + a + b);
    PatchTwice(m, dest, m[src..src + a], m[src + a..src + a + b]);
  }

  lemma SourceKept(m: seq<Byte>, dest: nat, src: nat, a: nat, b: nat)
    requires Apart(dest, src, a + b, |m|)
    ensures Copy(m, dest, src, a)[src + a..src + a + b] == m[src + a..src + a + b]
  {
    if dest + a + b <= src {
      PatchBehind(m, dest, m[src..src + a], src + a, src + a + b);
    } else {
      PatchBefore(m, dest, m[src..src + a], src + a, src + a + b);
    }
  }

  // ---- The pattern of memset -------------------------------------------------------------------

  const BYTE_BITS: nat := 8

  /** Bitwise or of `k`-bit numbers. */
  function OrBits(a: nat, b: nat, k: nat): (r: nat)
    ensures r < Pow2(k)
    decreases k, a
  {
    if k == 0 then 0
    else (if a % 2 == 1 || b % 2 == 1 then 1 else 0) + 2 * OrBits(a / 2, b / 2, k - 1)
  }

  /** Bit by bit it is the or. */
  lemma {:induction false} OrBitsAt(a: nat, b: nat, k: nat, i: nat)
    requires i < k
    ensures BitsOf(OrBits(a, b, k), k)[i] <==> BitsOf(a, k)[i] || BitsOf(b, k)[i]
    decreases k
  {
    if i > 0 {
      OrBitsAt(a / 2, b / 2, k - 1, i - 1);
    }
  }

  function Or8(a: Byte, b: Byte): Byte {
    assert Pow2(BYTE_BITS) == Pow2(8) == 256;
    OrBits(a, b, BYTE_BITS)
  }

  lemma {:induction false} OrZero(a: nat, k: nat)
    requires a < Pow2(k)
    ensures OrBits(a, 0, k) == a && OrBits(0, a, k) == a
    decreases k
  {
    if k > 0 {
      OrZero(a / 2, k - 1);
    }
  }

  lemma Or8Zero(a: Byte)
    ensures Or8(a, 0) == a && Or8(0, a) == a
  {
    assert Pow2(BYTE_BITS) == Pow2(8) == 256;
    OrZero(a, BYTE_BITS);
  }

  function OrWord(v: Quad, w: Quad): Quad {
    Quad(Or8(v.b0, w.b0), Or8(v.b1, w.b1), Or8(v.b2, w.b2), Or8(v.b3, w.b3))
  }

  /** The `int` argument converted to an unsigned 32-bit word. */
  function Bits(c: int): Quad {
    Quad(c % 256, (c / 256) % 256, (c / 65536) % 256, (c / 16777216) % 256)
  }

  /** Shifts by one, two and three bytes. */
  function Up1(w: Quad): Quad { Quad(0, w.b0, w.b1, w.b2) }
  function Up2(w: Quad): Quad { Quad(0, 0, w.b0, w.b1) }
  function Up3(w: Quad): Quad { Quad(0, 0, 0, w.b0) }

  function Pattern(c: int): Quad {
    var w := Bits(c);
    OrWord(OrWord(OrWord(Up3(w), Up2(w)), Up1(w)), w)
  }

  lemma PatternBytes(c: int)
    ensures var w := Bits(c);
            Pattern(c) == Quad(w.b0, Or8(w.b0, w.b1), Or8(Or8(w.b0, w.b1), w.b2), Or8(Or8(Or8(w.b0, w.b1), w.b2), w.b3))
  {
    var w := Bits(c);
    Or8Zero(0);
    Or8Zero(w.b0);
  }

  // ---- What memset leaves ----------------------------------------------------------------------

  /** Bytes stored before the first word. */
  function Head(s: nat, n: nat): (h: nat)
    ensures h <= n && (h < n ==> (s + h) % 4 == 0) && h < 4
  {
    var gap := (4 - s % 4) % 4;
    if gap <= n then gap else n
  }

  /** The first loop of memset runs on exactly as long as the head lasts. */
  lemma HeadIsFirst(s: nat, n: nat, k: nat)
    requires k <= Head(s, n)
    ensures k < Head(s, n) <==> k < n && (s + k) % 4 != 0
  {
  }

  function Repeat(b: Byte, n: nat): (r: seq<Byte>)
    ensures |r| == n && forall k | 0 <= k < n :: r[k] == b
  {
    seq(n, _ => b)
  }

  function RepeatWord(w: Quad, n: nat): (r: seq<Byte>)
    ensures |r| == n * 4
  {
    if n == 0 then [] else RepeatWord(w, n - 1) + QuadBytes(w)
  }

  lemma OneByteMore(d: seq<Byte>, b: Byte, j: nat)
    ensures d + Repeat(b, j) + [b] == d + Repeat(b, j + 1)
  {
    assert Repeat(b, j) + [b] == Repeat(b, j + 1);
  }

  lemma OneWordMore(d: seq<Byte>, w: Quad, k: nat)
    ensures d + RepeatWord(w, k) + QuadBytes(w) == d + RepeatWord(w, k + 1)
  {
  }

  /** Bytes, whole words, bytes. */
  function FilledWith(s: nat, b: Byte, w: Quad, n: nat): (r: seq<Byte>)
    ensures |r| == n
  {
    var h := Head(s, n);
    Repeat(b, h) + RepeatWord(w, (n - h) / 4) + Repeat(b, (n - h) % 4)
  }

  function Filled(s: nat, c: int, n: nat): (r: seq<Byte>)
    ensures |r| == n
  {
    FilledWith(s, Bits(c).b0, Pattern(c), n)
  }

  /** What memset leaves at each place: where the whole aligned word around it lies in the range, the byte of the
      pattern at its place in the word, and otherwise the lowest byte of the argument. */
  lemma FilledPlaces(s: nat, c: int, n: nat, k: nat)
    requires k < n
    ensures var word := s + k - (s + k) % 4;
            Filled(s, c, n)[k] == if s <= word && word + 4 <= s + n then QuadBytes(Pattern(c))[(s + k) % 4] else c % 256
  {
    PlacesWith(s, Bits(c).b0, Pattern(c), n, k);
  }

  lemma PlacesWith(s: nat, b: Byte, w: Quad, n: nat, k: nat)
    requires k < n
    ensures var word := s + k - (s + k) % 4;
            FilledWith(s, b, w, n)[k] == if s <= word && word + 4 <= s + n then QuadBytes(w)[(s + k) % 4] else b
  {
    var h := Head(s, n);
    WordPlace(s, n, k);
    FilledParts(s, b, w, n, k);
    if h <= k < h + (n - h) / 4 * 4 {
      RepeatWordAt(w, (n - h) / 4, k - h);
    }
  }

  /** The words are exactly the aligned words inside the range. */
  lemma WordPlace(s: nat, n: nat, k: nat)
    requires k < n
    ensures var h, word := Head(s, n), s + k - (s + k) % 4;
            && (h <= k < h + (n - h) / 4 * 4 <==> s <= word && word + 4 <= s + n)
            && (h <= k ==> (k - h) % 4 == (s + k) % 4)
  {
  }

  lemma FilledParts(s: nat, b: Byte, w: Quad, n: nat, k: nat)
    requires k < n
    ensures var h := Head(s, n);
            FilledWith(s, b, w, n)[k] == if h <= k < h + (n - h) / 4 * 4 then RepeatWord(w, (n - h) / 4)[k - h] else b
  {
  }

  lemma {:induction false} RepeatWordAt(w: Quad, n: nat, k: nat)
    requires k < n * 4
    ensures RepeatWord(w, n)[k] == QuadBytes(w)[k % 4]
    decreases n
  {
    if k < (n - 1) * 4 {
      RepeatWordAt(w, n - 1, k);
    } else {
      assert k % 4 == k - (n - 1) * 4;
    }
  }

  /** The higher bytes of the argument have no bit that its lowest byte lacks; true of every value of an
      unsigned char. */
  predicate OneByte(c: int) {
    var w := Bits(c);
    Or8(w.b0, w.b1) == w.b0 && Or8(w.b0, w.b2) == w.b0 && Or8(w.b0, w.b3) == w.b0
  }

  lemma UnsignedCharIsOneByte(c: int)
    requires 0 <= c <= 255
    ensures OneByte(c) && Bits(c).b0 == c
  {
    assert Bits(c) == Quad(c, 0, 0, 0);
    Or8Zero(c);
  }

  /** memset is the byte loop with the argument converted to unsigned char. */
  ghost predicate IsByteLoop(c: int) {
    forall s, n :: Filled(s, c, n) == Repeat(c % 256, n)
  }

  lemma SameBytes(s: nat, b: Byte, w: Quad, n: nat)
    requires w == Quad(b, b, b, b)
    ensures FilledWith(s, b, w, n) == Repeat(b, n)
  {
    RepeatSame(b, w, (n - Head(s, n)) / 4);
  }

  lemma {:induction false} RepeatSame(b: Byte, w: Quad, k: nat)
    requires w == Quad(b, b, b, b)
    ensures RepeatWord(w, k) == Repeat(b, 4 * k)
  {
    if k > 0 {
      RepeatSame(b, w, k - 1);
      assert Repeat(b, 4 * (k - 1)) + QuadBytes(w) == Repeat(b, 4 * k);
    }
  }

  lemma OneWord(b: Byte, w: Quad)
    ensures FilledWith(0, b, w, 4) == [w.b0, w.b1, w.b2, w.b3]
  {
    assert Head(0, 4) == 0 && Repeat(b, 0) == [];
    assert RepeatWord(w, 1) == RepeatWord(w, 0) + QuadBytes(w);
  }

  lemma PatternOfOneByte(c: int)
    ensures var b := Bits(c).b0; Pattern(c) == Quad(b, b, b, b) <==> OneByte(c)
  {
    PatternBytes(c);
  }

  /** For every address and length the result is that of the byte loop, exactly for such arguments. */
  lemma MemsetIsByteLoop(c: int)
    ensures IsByteLoop(c) <==> OneByte(c)
  {
    PatternOfOneByte(c);
    var b, w := Bits(c).b0, Pattern(c);
    if w == Quad(b, b, b, b) {
      forall s, n
        ensures Filled(s, c, n) == Repeat(c % 256, n)
      {
        SameBytes(s, b, w, n);
      }
    } else {
      DiffersInWord(b, w);
      assert Filled(0, c, 4) != Repeat(c % 256, 4);
    }
  }

  lemma DiffersInWord(b: Byte, w: Quad)
    requires w != Quad(b, b, b, b)
    ensures FilledWith(0, b, w, 4) != Repeat(b, 4)
  {
    OneWord(b, w);
    assert Repeat(b, 4) == [b, b, b, b];
  }

  /** An argument outside that range for which the words differ from the bytes. */
  lemma MemsetOf256()
    ensures Filled(0, 256, 4) == [0, 1, 1, 1]
  {
    assert Bits(256) == Quad(0, 1, 0, 0);
    PatternBytes(256);
    Or8Zero(0);
    Or8Zero(1);
    OneWord(0, Pattern(256));
  }
}
