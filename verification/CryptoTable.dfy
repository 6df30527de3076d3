/** Operation table and multipart shims of the crypto service (src/secure_fw/partitions/crypto): the contexts of
    multipart operations stay in the service, clients hold handles. */
module CryptoTable {
  /** The backend context, read as one number: 0 when every byte is zero. */
  type Context = nat

  datatype OpType = NoOperation | Cipher | Mac | Hash | KeyDerivation | Aead

  datatype Status =
    Success | BadState | NotPermitted | InvalidArgument | ProgrammerError | NotSupported | Backend(code: int)

  datatype Entry = Entry(inUse: bool, owner: int, kind: OpType, ctx: Context)

  const FREE := Entry(false, 0, NoOperation, 0)

  const INVALID_HANDLE: nat := 0

  /** What a service call leaves behind: status, the handle cell it was given, the table. */
  datatype Outcome = Outcome(status: Status, handle: nat, ops: seq<Entry>)

  // ---- The table as values ---------------------------------------------------------------------

  function FirstFree(ops: seq<Entry>): (i: nat)
    ensures i <= |ops|
    ensures i < |ops| ==> !ops[i].inUse
    ensures forall j | 0 <= j < i :: ops[j].inUse
  {
    if ops == [] || !ops[0].inUse then 0 else 1 + FirstFree(ops[1..])
  }

  function Alloc(ops: seq<Entry>, kind: OpType, handle: nat, caller: int): (o: Outcome)
    ensures |o.ops| == |ops|
    ensures o.status.Success? ==> 1 <= o.handle <= |ops|
  {
    if handle != INVALID_HANDLE then Outcome(BadState, handle, ops)
    else
      var i := FirstFree(ops);
      if i < |ops| then Outcome(Success, i + 1, ops[i := Entry(true, caller, kind, ops[i].ctx)])
      else Outcome(NotPermitted, handle, ops)
  }

  function Release(ops: seq<Entry>, handle: nat, caller: int): (o: Outcome)
    ensures |o.ops| == |ops| && o.handle == INVALID_HANDLE
  {
    if handle == INVALID_HANDLE || handle > |ops| then Outcome(InvalidArgument, INVALID_HANDLE, ops)
    else if ops[handle - 1].inUse && ops[handle - 1].owner == caller then
      Outcome(Success, INVALID_HANDLE, ops[handle - 1 := FREE])
    else Outcome(InvalidArgument, INVALID_HANDLE, ops)
  }

  predicate Found(ops: seq<Entry>, kind: OpType, handle: nat, caller: int) {
    && handle != INVALID_HANDLE && handle <= |ops|
    && ops[handle - 1].inUse && ops[handle - 1].kind == kind && ops[handle - 1].owner == caller
  }

  function WithContext(ops: seq<Entry>, handle: nat, ctx: Context): (r: seq<Entry>)
    requires 1 <= handle <= |ops|
  {
    ops[handle - 1 := ops[handle - 1].(ctx := ctx)]
  }

  // ---- The table as a map ----------------------------------------------------------------------

  datatype Live = Live(owner: int, kind: OpType, ctx: Context)

  predicate IsLive(ops: seq<Entry>, h: nat) {
    1 <= h <= |ops| && ops[h - 1].inUse
  }

  /** The abstract table: the live handles and what they stand for. */
  ghost function Abstract(ops: seq<Entry>): map<nat, Live> {
    map h: nat | 1 <= h <= |ops| && IsLive(ops, h) :: Live(ops[h - 1].owner, ops[h - 1].kind, ops[h - 1].ctx)
  }

  /** A free entry holds nothing: no owner, no type and an all-zero context. */
  ghost predicate Clean(ops: seq<Entry>) {
    forall i | 0 <= i < |ops| && !ops[i].inUse :: ops[i] == FREE
  }

  /** Allocation succeeds exactly when the caller's handle is clear and some handle is not live; it then adds
      one live handle with an all-zero context. */
  lemma AllocRefines(ops: seq<Entry>, kind: OpType, handle: nat, caller: int)
    requires Clean(ops)
    ensures var o := Alloc(ops, kind, handle, caller);
            && Clean(o.ops) && |o.ops| == |ops|
            && (o.status.Success? <==>
                  handle == INVALID_HANDLE && exists h: nat :: 1 <= h <= |ops| && h !in Abstract(ops))
            && (o.status.Success? ==>
                  && 1 <= o.handle <= |ops| && o.handle !in Abstract(ops)
                  && Abstract(o.ops) == Abstract(ops)[o.handle := Live(caller, kind, 0)])
            && (!o.status.Success? ==>
                  && o.ops == ops && o.handle == handle
                  && o.status == if handle != INVALID_HANDLE then BadState else NotPermitted)
  {
    var i := FirstFree(ops);
    if i < |ops| {
      assert i + 1 !in Abstract(ops);
      assert ops[i] == FREE;
    }
    if handle == INVALID_HANDLE {
      var o := Alloc(ops, kind, handle, caller);
      if h: nat :| 1 <= h <= |ops| && h !in Abstract(ops) {
        assert !ops[h - 1].inUse;
      }
    }
  }

  /** Release removes exactly a live handle of the caller and always clears the handle cell. */
  lemma ReleaseRefines(ops: seq<Entry>, handle: nat, caller: int)
    requires Clean(ops)
    ensures var o := Release(ops, handle, caller);
            && Clean(o.ops) && |o.ops| == |ops| && o.handle == INVALID_HANDLE
            && (o.status.Success? <==> handle in Abstract(ops) && Abstract(ops)[handle].owner == caller)
            && (o.status.Success? ==> Abstract(o.ops) == Abstract(ops) - {handle})
            && (!o.status.Success? ==> o.status == InvalidArgument && o.ops == ops)
  {
  }

  /** Lookup succeeds exactly for the live handles of the caller and the type. */
  lemma FoundRefines(ops: seq<Entry>, kind: OpType, handle: nat, caller: int)
    ensures Found(ops, kind, handle, caller) <==>
              handle in Abstract(ops) && Abstract(ops)[handle].owner == caller && Abstract(ops)[handle].kind == kind
  {
  }

  // ---- Shims -----------------------------------------------------------------------------------

  /** What the backend does with a context: its status and the new context. */
  datatype Answer = Answer(status: Status, ctx: Context)

  /** The roles of the multipart functions of the shims, with what the backend does. Functions that only use an
      operation (update, set_iv, input_bytes, …) all behave alike; so do the setups and the finishing ones. */
  datatype Call =
    | Setup(act: Context -> Answer)
    | Use(act: Context -> Answer)
    | Finish(act: Context -> Answer)
    | Abort(act: Context -> Answer)
    | Clone(act: Context -> Answer, target: nat)
    | Unknown

  /** One request to a shim: `cell` is the content of the client's handle buffer, `hasCell` tells whether
      there is one that is large enough. */
  datatype Request = Request(kind: OpType, call: Call, handle: nat, hasCell: bool, cell: nat, caller: int)

  function Shim(ops: seq<Entry>, q: Request): Outcome {
    var found := Found(ops, q.kind, q.handle, q.caller);
    match q.call
    case Setup(act) =>
      if !q.hasCell then Outcome(ProgrammerError, q.cell, ops)
      else
        var o := Alloc(ops, q.kind, q.handle, q.caller);
        if !o.status.Success? then o
        else
          var a := act(o.ops[o.handle - 1].ctx);
          var ops' := WithContext(o.ops, o.handle, a.ctx);
          if a.status.Success? then Outcome(Success, o.handle, ops')
          else Outcome(a.status, INVALID_HANDLE, Release(ops', o.handle, q.caller).ops)
    case Use(act) =>
      if !found then Outcome(BadState, q.cell, ops)
      else
        var a := act(ops[q.handle - 1].ctx);
        Outcome(a.status, q.cell, WithContext(ops, q.handle, a.ctx))
    case Finish(act) =>
      if !q.hasCell then Outcome(ProgrammerError, q.cell, ops)
      else if !found then Outcome(BadState, q.handle, ops)
      else
        var a := act(ops[q.handle - 1].ctx);
        var ops' := WithContext(ops, q.handle, a.ctx);
        if a.status.Success? then Outcome(Success, INVALID_HANDLE, Release(ops', q.handle, q.caller).ops)
        else Outcome(a.status, q.handle, ops')
    case Abort(act) =>
      if !q.hasCell then Outcome(ProgrammerError, q.cell, ops)
      else if !found then Outcome(Success, q.handle, ops)
      else
        var a := act(ops[q.handle - 1].ctx);
        Outcome(a.status, INVALID_HANDLE, Release(WithContext(ops, q.handle, a.ctx), q.handle, q.caller).ops)
    case Clone(act, target) =>
      if !found then Outcome(BadState, q.cell, ops)
      else if !q.hasCell then Outcome(ProgrammerError, q.cell, ops)
      else
        var o := Alloc(ops, q.kind, target, q.caller);
        if !o.status.Success? then o
        else
          var a := act(o.ops[q.handle - 1].ctx);
          var ops' := WithContext(o.ops, o.handle, a.ctx);
          if a.status.Success? then Outcome(Success, o.handle, ops')
          else Outcome(a.status, INVALID_HANDLE, Release(ops', o.handle, q.caller).ops)
    case Unknown =>
      Outcome(if found then NotSupported else BadState, q.cell, ops)
  }

  /** Whatever a client sends, the table stays clean and no entry of another client changes, appears or goes. */
  lemma OthersUntouched(ops: seq<Entry>, q: Request, i: nat)
    requires Clean(ops) && i < |ops|
    ensures var o := Shim(ops, q);
            && |o.ops| == |ops| && (o.ops[i].inUse || o.ops[i] == FREE)
            && (ops[i].inUse && ops[i].owner != q.caller ==> o.ops[i] == ops[i])
            && (o.ops[i].inUse && o.ops[i] != ops[i] ==> o.ops[i].owner == q.caller)
  {
    match q.call
    case Setup(act) =>
    case Use(act) =>
    case Finish(act) =>
    case Abort(act) =>
    case Clone(act, target) =>
    case Unknown =>
  }

  /** What a shim answers, and that it changes nothing, when a request cannot be served: no handle buffer, an
      operation that is not live, of another type or of another client, a handle in the way, no free entry, or an
      unknown function. Only abort takes a dead handle for success. */
  lemma ShimRefuses(ops: seq<Entry>, q: Request)
    ensures var o, h := Shim(ops, q), q.handle;
            var live := 1 <= h <= |ops| && ops[h - 1].inUse && ops[h - 1].kind == q.kind && ops[h - 1].owner == q.caller;
            var full := forall i | 0 <= i < |ops| :: ops[i].inUse;
            && ((q.call.Setup? || q.call.Finish? || q.call.Abort?) && !q.hasCell ==> o == Outcome(ProgrammerError, q.cell, ops))
            && (q.call.Setup? && q.hasCell && h != 0 ==> o == Outcome(BadState, h, ops))
            && (q.call.Setup? && q.hasCell && h == 0 && full ==> o == Outcome(NotPermitted, 0, ops))
            && (q.call.Finish? && q.hasCell && !live ==> o == Outcome(BadState, h, ops))
            && (q.call.Abort? && q.hasCell && !live ==> o == Outcome(Success, h, ops))
            && ((q.call.Use? || q.call.Clone? || q.call.Unknown?) && !live ==> o == Outcome(BadState, q.cell, ops))
            && (q.call.Unknown? && live ==> o == Outcome(NotSupported, q.cell, ops))
            && (q.call.Clone? && live && !q.hasCell ==> o == Outcome(ProgrammerError, q.cell, ops))
            && (q.call.Clone? && live && q.hasCell && q.call.target != 0 ==> o == Outcome(BadState, q.call.target, ops))
            && (q.call.Clone? && live && q.hasCell && q.call.target == 0 && full ==> o == Outcome(NotPermitted, 0, ops))
  {
    var i := FirstFree(ops);
    assert i < |ops| ==> !ops[i].inUse;
  }

  /** Whatever a client sends, free entries stay all zero. */
  lemma ShimKeepsClean(ops: seq<Entry>, q: Request)
    requires Clean(ops)
    ensures Clean(Shim(ops, q).ops) && |Shim(ops, q).ops| == |ops|
  {
    if ops == [] {
      assert Shim(ops, q).ops == [];
    }
    forall i | 0 <= i < |ops|
      ensures |Shim(ops, q).ops| == |ops| && (Shim(ops, q).ops[i].inUse || Shim(ops, q).ops[i] == FREE)
    {
      OthersUntouched(ops, q, i);
    }
  }
}
