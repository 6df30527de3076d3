/** The scratch memory of the crypto service and its request handler, for the build without mapped buffers
    (src/secure_fw/partitions/crypto/crypto_init.c): a bump allocator gives every buffer of one request its place. */
module CryptoScratch {
  import opened Bytes

  const MAX_IOVEC := 4

  const SIZE_MAX := 0xFFFF_FFFF

  datatype Status = Success | InsufficientMemory | GenericError | Service(code: int)

  datatype Vec = Vec(base: nat, len: nat)

  /** One request: the input buffers of the client and the sizes of its output buffers. */
  datatype Msg = Msg(client: int, ins: seq<seq<Byte>>, outs: seq<nat>)

  ghost predicate WellFormed(m: Msg) {
    && |m.ins| == MAX_IOVEC && |m.outs| == MAX_IOVEC
    && (forall i | 0 <= i < MAX_IOVEC :: |m.ins[i]| <= SIZE_MAX && m.outs[i] <= SIZE_MAX)
  }

  // ---- Where buffers go ------------------------------------------------------------------------

  /** ALIGN to four bytes: the least multiple of four not below `n`. */
  function Ceil4(n: nat): (r: nat)
    ensures r % 4 == 0 && n <= r < n + 4
  {
    (n + 3) / 4 * 4
  }

  /** The room a list of buffers takes. */
  function Total(sizes: seq<nat>): (r: nat)
    ensures r % 4 == 0
  {
    if sizes == [] then 0 else Total(sizes[..|sizes| - 1]) + Ceil4(sizes[|sizes| - 1])
  }

  /** Each buffer starts where the ones before it end. */
  function Place(sizes: seq<nat>, k: nat): (v: Vec)
    requires k < |sizes|
    ensures v.base % 4 == 0
  {
    Vec(Total(sizes[..k]), sizes[k])
  }

  /** The vectors are the places of the buffers from number `m` on. */
  ghost predicate PlacedFrom(vecs: seq<Vec>, sizes: seq<nat>, m: nat) {
    m + |vecs| <= |sizes| && forall k | 0 <= k < |vecs| :: vecs[k] == Place(sizes, m + k)
  }

  lemma {:induction false} TotalGrows(sizes: seq<nat>, k: nat)
    requires k <= |sizes|
    ensures Total(sizes[..k]) <= Total(sizes)
    decreases |sizes|
  {
    if k == |sizes| {
      assert sizes[..k] == sizes;
    } else {
      var shorter := sizes[..|sizes| - 1];
      assert shorter[..k] == sizes[..k];
      TotalGrows(shorter, k);
    }
  }

  /** Buffers do not overlap, and all lie within the total. */
  lemma PlacesDisjoint(sizes: seq<nat>, i: nat, j: nat)
    requires i < j < |sizes|
    ensures Place(sizes, i).base + sizes[i] <= Place(sizes, j).base
    ensures Place(sizes, j).base + sizes[j] <= Total(sizes)
  {
    assert sizes[..j][..i + 1] == sizes[..i + 1];
    TotalGrows(sizes[..j], i + 1);
    assert sizes[..i + 1][..i] == sizes[..i];
    TotalGrows(sizes, j + 1);
    assert sizes[..j + 1][..j] == sizes[..j];
  }

  lemma PlaceFits(sizes: seq<nat>, k: nat)
    requires k < |sizes|
    ensures Total(sizes[..k + 1]) == Place(sizes, k).base + Ceil4(sizes[k]) <= Total(sizes)
  {
    assert sizes[..k + 1][..k] == sizes[..k];
    TotalGrows(sizes, k + 1);
  }

  function Sizes(ins: seq<seq<Byte>>): (r: seq<nat>)
    ensures |r| == |ins|
    ensures forall i | 0 <= i < |ins| :: r[i] == |ins[i]|
  {
    seq(|ins|, i requires 0 <= i < |ins| => |ins[i]|)
  }

  /** The buffers of a request in the order in which they are allocated: the inputs from the second on, then
      the outputs. */
  function BufferSizes(ins: seq<seq<Byte>>, outs: seq<nat>): (r: seq<nat>)
    ensures |r| == (if |ins| == 0 then 0 else |ins| - 1) + |outs|
  {
    (if |ins| == 0 then [] else Sizes(ins[1..])) + outs
  }

  ghost predicate ZeroFrom(s: seq<Byte>, n: nat) {
    forall k | n <= k < |s| :: s[k] == 0
  }

  ghost predicate StoredAt(s: seq<Byte>, sizes: seq<nat>, from: nat, data: seq<seq<Byte>>, k: nat) {
    && from + k < |sizes| && k < |data| && |data[k]| <= sizes[from + k]
    && Place(sizes, from + k).base + |data[k]| <= |s|
    && s[Place(sizes, from + k).base..Place(sizes, from + k).base + |data[k]|] == data[k]
  }

  /** The first `m` pieces of data lie in their places, from buffer number `from` on. */
  ghost predicate Stored(s: seq<Byte>, sizes: seq<nat>, from: nat, data: seq<seq<Byte>>, m: nat) {
    forall k: nat | k < m :: StoredAt(s, sizes, from, data, k)
  }

  /** Storing one more piece in its place keeps the others. */
  lemma StoreOneMore(s: seq<Byte>, sizes: seq<nat>, from: nat, data: seq<seq<Byte>>, m: nat)
    requires Stored(s, sizes, from, data, m) && from + m < |sizes| && m < |data| && |data[m]| <= sizes[from + m]
    requires Total(sizes[..from + m + 1]) <= |s|
    ensures Total(sizes[..from + m]) + |data[m]| <= |s|
    ensures Stored(Patch(s, Total(sizes[..from + m]), data[m]), sizes, from, data, m + 1)
  {
    PlaceFits(sizes, from + m);
    var s' := Patch(s, Total(sizes[..from + m]), data[m]);
    forall k: nat | k < m + 1
      ensures StoredAt(s', sizes, from, data, k)
    {
      var at := Place(sizes, from + k).base;
      if k < m {
        assert StoredAt(s, sizes, from, data, k);
        PlacesDisjoint(sizes, from + k, from + m);
        assert s'[at..at + |data[k]|] == s[at..at + |data[k]|];
      } else {
        assert s'[at..at + |data[k]|] == data[k];
      }
    }
  }

  /** How many entries remain without the trailing zeros. */
  function Trimmed(sizes: seq<nat>): (n: nat)
    ensures n <= |sizes| && (n > 0 ==> sizes[n - 1] != 0)
    ensures forall k | n <= k < |sizes| :: sizes[k] == 0
  {
    if sizes == [] then 0
    else if sizes[|sizes| - 1] != 0 then |sizes|
    else Trimmed(sizes[..|sizes| - 1])
  }

  method TrimSizes(sizes: seq<nat>) returns (n: nat)
    ensures n == Trimmed(sizes)
  {
    n := |sizes|;
    while n > 0 && sizes[n - 1] == 0
      invariant n <= |sizes| && Trimmed(sizes[..n]) == Trimmed(sizes)
    {
      assert sizes[..n][..n - 1] == sizes[..n - 1];
      n := n - 1;
    }
  }

  // ---- The scratch -----------------------------------------------------------------------------

  class Scratch {
    const buf: array<Byte>
    var allocIndex: nat
    var owner: int

    constructor (size: nat)
      requires size <= SIZE_MAX
      ensures Valid() && allocIndex == 0 && fresh(buf) && buf.Length == size
    {
      buf := new Byte[size](_ => 0);
      allocIndex, owner := 0, 0;
    }

    /** The index is aligned and within the buffer, and nothing at or above it has been touched. */
    ghost predicate Valid()
      reads this, buf
    {
      buf.Length <= SIZE_MAX && allocIndex <= buf.Length && allocIndex % 4 == 0 && ZeroFrom(buf[..], allocIndex)
    }

    /** Between requests: nothing allocated, and so nothing left of any earlier request. */
    ghost predicate Cleared()
      reads this, buf
    {
      Valid() && allocIndex == 0 && ZeroFrom(buf[..], 0)
    }

    /** `tfm_crypto_alloc_scratch`. */
    method AllocScratch(requested: nat) returns (status: Status, at: nat)
      requires Valid() && requested <= SIZE_MAX
      modifies this`allocIndex
      ensures Valid()
      ensures status == if Ceil4(requested) <= buf.Length - old(allocIndex) then Success else InsufficientMemory
      ensures status.Success? ==> at == old(allocIndex) && allocIndex == at + Ceil4(requested)
      ensures !status.Success? ==> allocIndex == old(allocIndex)
    {
      at := 0;
      if requested > SIZE_MAX - 3 {
        return InsufficientMemory, at;
      }
      var size := Ceil4(requested);
      if size > buf.Length - allocIndex {
        return InsufficientMemory, at;
      }
      at := allocIndex;
      allocIndex := allocIndex + size;
      status := Success;
    }

    /** `tfm_crypto_clear_scratch`: it clears up to the index only. */
    method ClearScratch()
      requires allocIndex <= buf.Length <= SIZE_MAX && ZeroFrom(buf[..], allocIndex)
      modifies this, buf
      ensures Cleared() && owner == 0
    {
      owner := 0;
      forall k | 0 <= k < allocIndex {
        buf[k] := 0;
      }
      allocIndex := 0;
    }

    /** psa_read of one whole input, and a shim's store into an output buffer. */
    method Store(at: nat, data: seq<Byte>)
      requires at + |data| <= buf.Length
      modifies buf
      ensures buf[..] == Patch(old(buf[..]), at, data)
    {
      forall k | 0 <= k < |data| {
        buf[at + k] := data[k];
      }
    }

    /** Room for one input, and the input read into it. */
    method ReadInput(d: seq<Byte>, ghost sizes: seq<nat>, ghost data: seq<seq<Byte>>, ghost k: nat) returns (status: Status, at: nat)
      requires Valid() && k < |sizes| && k < |data| && d == data[k] && |d| == sizes[k] <= SIZE_MAX
      requires allocIndex == Total(sizes[..k]) && Stored(buf[..], sizes, 0, data, k)
      modifies this`allocIndex, buf
      ensures Valid()
      ensures status.Success? ==>
                && Vec(at, |d|) == Place(sizes, k) && allocIndex == Total(sizes[..k + 1])
                && Stored(buf[..], sizes, 0, data, k + 1)
      ensures !status.Success? ==>
                && status.InsufficientMemory? && Total(sizes) > buf.Length
                && allocIndex == old(allocIndex) && buf[..] == old(buf[..])
    {
      PlaceFits(sizes, k);
      status, at := AllocScratch(|d|);
      if !status.Success? {
        return;
      }
      StoreOneMore(buf[..], sizes, 0, data, k);
      Store(at, d);
    }

    /** The input half of `tfm_crypto_init_iovecs`. */
    method ReadInputs(ins: seq<seq<Byte>>, ghost outs: seq<nat>) returns (status: Status, vecs: seq<Vec>)
      requires Cleared() && 1 <= |ins| && forall i | 0 <= i < |ins| :: |ins[i]| <= SIZE_MAX
      modifies this`allocIndex, buf
      ensures var sizes := BufferSizes(ins, outs);
              && |vecs| <= |sizes| && |vecs| < |ins| && Valid() && allocIndex == Total(sizes[..|vecs|])
              && PlacedFrom(vecs, sizes, 0)
              && Stored(buf[..], sizes, 0, ins[1..], |vecs|)
              && (status.Success? ==> |vecs| == |ins| - 1)
              && (!status.Success? ==> status.InsufficientMemory? && Total(sizes) > buf.Length)
    {
      ghost var sizes := BufferSizes(ins, outs);
      vecs := [];
      var i := 1;
      while i < |ins|
        invariant 1 <= i <= |ins| && |vecs| == i - 1 && Valid() && allocIndex == Total(sizes[..i - 1])
        invariant PlacedFrom(vecs, sizes, 0)
        invariant Stored(buf[..], sizes, 0, ins[1..], i - 1)
      {
        var at;
        status, at := ReadInput(ins[i], sizes, ins[1..], i - 1);
        if !status.Success? {
          return;
        }
        vecs := vecs + [Vec(at, |ins[i]|)];
        i := i + 1;
      }
      status := Success;
    }

    /** Room for one output. */
    method PlaceOutput(size: nat, ghost sizes: seq<nat>, ghost k: nat) returns (status: Status, at: nat)
      requires Valid() && k < |sizes| && size == sizes[k] <= SIZE_MAX && allocIndex == Total(sizes[..k])
      modifies this`allocIndex
      ensures Valid()
      ensures status.Success? ==> Vec(at, size) == Place(sizes, k) && allocIndex == Total(sizes[..k + 1])
      ensures !status.Success? ==> status.InsufficientMemory? && Total(sizes) > buf.Length && allocIndex == old(allocIndex)
    {
      PlaceFits(sizes, k);
      status, at := AllocScratch(size);
    }

    /** The output half of `tfm_crypto_init_iovecs`: `m` inputs have their places already. */
    method PlaceOutputs(outs: seq<nat>, ghost sizes: seq<nat>, ghost m: nat) returns (status: Status, vecs: seq<Vec>)
      requires Valid() && |sizes| == m + |outs| && sizes[m..] == outs && allocIndex == Total(sizes[..m])
      requires forall i | 0 <= i < |outs| :: outs[i] <= SIZE_MAX
      modifies this`allocIndex
      ensures Valid() && |vecs| <= |outs| && allocIndex == Total(sizes[..m + |vecs|])
      ensures PlacedFrom(vecs, sizes, m)
      ensures status.Success? ==> |vecs| == |outs|
      ensures !status.Success? ==> status.InsufficientMemory? && Total(sizes) > buf.Length
    {
      vecs := [];
      var i := 0;
      while i < |outs|
        invariant i <= |outs| && |vecs| == i && Valid() && allocIndex == Total(sizes[..m + i])
        invariant PlacedFrom(vecs, sizes, m)
      {
        var at;
        assert sizes[m..][i] == sizes[m + i];
        status, at := PlaceOutput(outs[i], sizes, m + i);
        if !status.Success? {
          return;
        }
        vecs := vecs + [Vec(at, outs[i])];
        i := i + 1;
      }
      status := Success;
    }

    /** `tfm_crypto_init_iovecs`: it succeeds exactly when all buffers fit. Every input then lies in its place
        and every output buffer is all zero; on failure the scratch is cleared. */
    method InitIovecs(ins: seq<seq<Byte>>, outs: seq<nat>) returns (status: Status, inVecs: seq<Vec>, outVecs: seq<Vec>)
      requires Cleared() && 1 <= |ins| && forall i | 0 <= i < |ins| :: |ins[i]| <= SIZE_MAX
      requires forall i | 0 <= i < |outs| :: outs[i] <= SIZE_MAX
      modifies this, buf
      ensures status == if Total(BufferSizes(ins, outs)) <= buf.Length then Success else InsufficientMemory
      ensures !status.Success? ==> Cleared()
      ensures status.Success? ==> Laid(ins, outs, inVecs, outVecs)
    {
      ghost var sizes, m := BufferSizes(ins, outs), |ins| - 1;
      outVecs := [];
      status, inVecs := ReadInputs(ins, outs);
      if !status.Success? {
        ClearScratch();
        return;
      }
      status, outVecs := PlaceOutputs(outs, sizes, m);
      if !status.Success? {
        ClearScratch();
        return;
      }
      assert sizes[..m + |outs|] == sizes;
    }

    /** The request is laid out: buffers in their places, inputs read, outputs all zero. */
    ghost predicate Laid(ins: seq<seq<Byte>>, outs: seq<nat>, inVecs: seq<Vec>, outVecs: seq<Vec>)
      reads this, buf
    {
      var sizes := BufferSizes(ins, outs);
      && |ins| >= 1 && Valid() && allocIndex == Total(sizes) && |inVecs| == |ins| - 1 && |outVecs| == |outs|
      && PlacedFrom(inVecs, sizes, 0) && PlacedFrom(outVecs, sizes, |ins| - 1)
      && Stored(buf[..], sizes, 0, ins[1..], |ins| - 1)
      && ZeroFrom(buf[..], Total(sizes[..|ins| - 1]))
    }

    /** One result goes into its output buffer. */
    method StoreResult(base: nat, ghost sizes: seq<nat>, ghost m: nat, results: seq<seq<Byte>>, i: nat)
      requires Valid() && allocIndex == Total(sizes) && m + i < |sizes| && i < |results| && |results[i]| <= sizes[m + i]
      requires base == Place(sizes, m + i).base && Stored(buf[..], sizes, m, results, i)
      modifies buf
      ensures Valid() && Stored(buf[..], sizes, m, results, i + 1)
    {
      PlaceFits(sizes, m + i);
      StoreOneMore(buf[..], sizes, m, results, i);
      Store(base, results[i]);
    }

    /** The service behind the dispatcher: it finds the inputs of this client, and leaves `contents` in the
        output buffers. */
    method Dispatch(client: int, ins: seq<seq<Byte>>, outs: seq<nat>, inVecs: seq<Vec>, outVecs: seq<Vec>, contents: seq<seq<Byte>>)
      requires Laid(ins, outs, inVecs, outVecs) && owner == client && Sizes(contents) == outs
      modifies buf
      ensures Valid() && Stored(buf[..], BufferSizes(ins, outs), |ins| - 1, contents, |outs|)
    {
      ghost var sizes, m := BufferSizes(ins, outs), |ins| - 1;
      var i := 0;
      while i < |outs|
        invariant i <= |outs| == |outVecs| && Valid() && allocIndex == Total(sizes)
        invariant PlacedFrom(outVecs, sizes, m)
        invariant Stored(buf[..], sizes, m, contents, i)
      {
        StoreResult(outVecs[i].base, sizes, m, contents, i);
        i := i + 1;
      }
    }

    /** psa_write of the reported length of every output buffer. */
    method WriteOutputs(outVecs: seq<Vec>, lens: seq<nat>, ghost sizes: seq<nat>, ghost m: nat, ghost contents: seq<seq<Byte>>)
      returns (written: seq<seq<Byte>>)
      requires |lens| == |outVecs| && Within(contents, lens) && |sizes| == m + |outVecs|
      requires PlacedFrom(outVecs, sizes, m) && Stored(buf[..], sizes, m, contents, |outVecs|)
      ensures written == Reported(contents, lens)
    {
      written := [];
      var i := 0;
      while i < |outVecs|
        invariant i <= |outVecs| == |contents| && |written| == i
        invariant forall k | 0 <= k < i :: written[k] == contents[k][..lens[k]]
      {
        assert StoredAt(buf[..], sizes, m, contents, i);
        var v := outVecs[i];
        assert buf[v.base..v.base + lens[i]] == buf[..][v.base..v.base + |contents[i]|][..lens[i]];
        written := written + [buf[v.base..v.base + lens[i]]];
        i := i + 1;
      }
    }

    /** The part of `tfm_crypto_call_srv` behind `tfm_crypto_init_iovecs`. */
    method Serve(client: int, ins: seq<seq<Byte>>, outs: seq<nat>, inVecs: seq<Vec>, outVecs: seq<Vec>, answer: Status,
                 contents: seq<seq<Byte>>, lens: seq<nat>)
      returns (written: seq<seq<Byte>>)
      requires Laid(ins, outs, inVecs, outVecs) && Sizes(contents) == outs && Within(contents, lens)
      modifies this, buf
      ensures Cleared() && written == if answer.Success? then Reported(contents, lens) else []
    {
      written := [];
      owner := client;
      Dispatch(client, ins, outs, inVecs, outVecs, contents);
      if answer.Success? {
        written := WriteOutputs(outVecs, lens, BufferSizes(ins, outs), |ins| - 1, contents);
      }
      ClearScratch();
    }

    /** `tfm_crypto_call_srv`. However a request ends, no byte of it is left in the scratch, also where the
        service has stored more than it reports; if the service succeeds, the client receives exactly what the
        service reports. `answer`, `contents` and `lens` are what the dispatcher makes of the request. */
    method CallSrv(msg: Msg, iovSize: nat, answer: Status, contents: seq<seq<Byte>>, lens: seq<nat>)
      returns (status: Status, written: seq<seq<Byte>>)
      requires Cleared() && WellFormed(msg) && Sizes(contents) == msg.outs && Within(contents, lens)
      modifies this, buf
      ensures Cleared()
      ensures status == ServiceStatus(msg, iovSize, buf.Length, answer)
      ensures var n := Trimmed(msg.outs);
              && Within(contents[..n], lens[..n])
              && written == if status.Success? then Reported(contents[..n], lens[..n]) else []
    {
      written := [];
      var inLen := TrimSizes(Sizes(msg.ins));
      var outLen := TrimSizes(msg.outs);
      if inLen < 1 {
        return GenericError, written;
      }
      if |msg.ins[0]| < iovSize {
        return GenericError, written;
      }
      var ins, outs := msg.ins[..inLen], msg.outs[..outLen];
      var inVecs, outVecs;
      status, inVecs, outVecs := InitIovecs(ins, outs);
      if !status.Success? {
        return;
      }
      status := answer;
      assert Sizes(contents[..outLen]) == outs;
      written := Serve(msg.client, ins, outs, inVecs, outVecs, answer, contents[..outLen], lens[..outLen]);
    }
  }

  /** No more is reported than fits the buffer. */
  ghost predicate Within(contents: seq<seq<Byte>>, lens: seq<nat>) {
    |lens| == |contents| && forall k | 0 <= k < |lens| :: lens[k] <= |contents[k]|
  }

  /** What the service reports of its output buffers. */
  ghost function Reported(contents: seq<seq<Byte>>, lens: seq<nat>): (r: seq<seq<Byte>>)
    requires Within(contents, lens)
    ensures |r| == |contents| && forall k | 0 <= k < |r| :: r[k] == contents[k][..lens[k]]
  {
    seq(|contents|, k requires 0 <= k < |contents| => contents[k][..lens[k]])
  }

  /** How a request ends, in terms of the request alone. */
  ghost function ServiceStatus(msg: Msg, iovSize: nat, room: nat, answer: Status): Status
    requires WellFormed(msg)
  {
    var inLen := Trimmed(Sizes(msg.ins));
    if inLen < 1 || |msg.ins[0]| < iovSize then GenericError
    else if Total(BufferSizes(msg.ins[..inLen], msg.outs[..Trimmed(msg.outs)])) > room then InsufficientMemory
    else answer
  }

  lemma {:induction false} TotalJoin(a: seq<nat>, b: seq<nat>)
    ensures Total(a + b) == Total(a) + Total(b)
    decreases |b|
  {
    if b == [] {
      assert a + b == a;
    } else {
      assert (a + b)[..|a + b| - 1] == a + b[..|b| - 1];
      TotalJoin(a, b[..|b| - 1]);
    }
  }

  lemma {:induction false} TotalOfZeros(a: seq<nat>)
    requires forall k | 0 <= k < |a| :: a[k] == 0
    ensures Total(a) == 0
    decreases |a|
  {
    if a != [] {
      TotalOfZeros(a[..|a| - 1]);
    }
  }

  /** Empty vectors at the end take no room. */
  lemma TrimmedTotal(a: seq<nat>, n: nat)
    requires n <= |a| && forall k | n <= k < |a| :: a[k] == 0
    ensures Total(a[..n]) == Total(a)
  {
    assert a == a[..n] + a[n..];
    TotalJoin(a[..n], a[n..]);
    TotalOfZeros(a[n..]);
  }

  lemma TotalOfFour(a: nat, b: nat, c: nat, d: nat)
    ensures Total([a, b, c, d]) == Ceil4(a) + Ceil4(b) + Ceil4(c) + Ceil4(d)
    ensures Total([a, b, c]) == Ceil4(a) + Ceil4(b) + Ceil4(c)
  {
    TotalJoin([a], [b]);
    TotalJoin([a, b], [c]);
    TotalJoin([a, b, c], [d]);
    assert [a] + [b] == [a, b] && [a, b] + [c] == [a, b, c] && [a, b, c] + [d] == [a, b, c, d];
    assert Total([a]) == Ceil4(a) && Total([b]) == Ceil4(b) && Total([c]) == Ceil4(c) && Total([d]) == Ceil4(d);
  }

  lemma AllBuffers(msg: Msg)
    requires WellFormed(msg) && exists i | 0 <= i < MAX_IOVEC :: msg.ins[i] != []
    ensures var inLen := Trimmed(Sizes(msg.ins));
            && inLen >= 1
            && Total(BufferSizes(msg.ins[..inLen], msg.outs[..Trimmed(msg.outs)]))
            == Ceil4(|msg.ins[1]|) + Ceil4(|msg.ins[2]|) + Ceil4(|msg.ins[3]|)
             + Ceil4(msg.outs[0]) + Ceil4(msg.outs[1]) + Ceil4(msg.outs[2]) + Ceil4(msg.outs[3])
  {
    var sizes, outs := Sizes(msg.ins), msg.outs;
    var n, m := Trimmed(sizes), Trimmed(outs);
    var i :| 0 <= i < MAX_IOVEC && msg.ins[i] != [];
    assert sizes[i] != 0;
    assert Sizes(msg.ins[..n][1..]) == sizes[1..][..n - 1];
    TotalJoin(sizes[1..][..n - 1], outs[..m]);
    TrimmedTotal(sizes[1..], n - 1);
    TrimmedTotal(outs, m);
    TotalOfAll(sizes, outs);
  }

  lemma TotalOfAll(sizes: seq<nat>, outs: seq<nat>)
    requires |sizes| == |outs| == 4
    ensures Total(sizes[1..]) == Ceil4(sizes[1]) + Ceil4(sizes[2]) + Ceil4(sizes[3])
    ensures Total(outs) == Ceil4(outs[0]) + Ceil4(outs[1]) + Ceil4(outs[2]) + Ceil4(outs[3])
  {
    assert sizes[1..] == [sizes[1], sizes[2], sizes[3]] && outs == [outs[0], outs[1], outs[2], outs[3]];
    TotalOfFour(sizes[1], sizes[2], sizes[3], 0);
    TotalOfFour(outs[0], outs[1], outs[2], outs[3]);
  }

  /** The status of a request: a generic error if it carries no input or the first one is too short, too little
      memory if the other inputs and the outputs, each rounded up to four bytes, do not fit, and otherwise what
      the service answers. */
  lemma ServiceAnswers(msg: Msg, iovSize: nat, room: nat, answer: Status)
    requires WellFormed(msg)
    ensures var need := Ceil4(|msg.ins[1]|) + Ceil4(|msg.ins[2]|) + Ceil4(|msg.ins[3]|)
                      + Ceil4(msg.outs[0]) + Ceil4(msg.outs[1]) + Ceil4(msg.outs[2]) + Ceil4(msg.outs[3]);
            var status := ServiceStatus(msg, iovSize, room, answer);
            if (forall i | 0 <= i < MAX_IOVEC :: msg.ins[i] == []) || |msg.ins[0]| < iovSize then status == GenericError
            else if need > room then status == InsufficientMemory
            else status == answer
  {
    if forall i | 0 <= i < MAX_IOVEC :: msg.ins[i] == [] {
      assert forall k | 0 <= k < MAX_IOVEC :: Sizes(msg.ins)[k] == 0;
    } else {
      AllBuffers(msg);
    }
  }
}
