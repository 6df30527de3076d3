/** The crypto service's operation table as the code keeps it, one array changed in place, and the control flow of
    its multipart shims (src/secure_fw/partitions/crypto/crypto_alloc.c, crypto_hash.c, crypto_cipher.c,
    crypto_mac.c, crypto_aead.c, crypto_key_derivation.c). Each method is proved to do what `CryptoTable` says. */
module CryptoService {
  import opened CryptoTable

  class OperationTable {
    const operations: array<Entry>

    /** `tfm_crypto_init_alloc`. */
    constructor (n: nat)
      ensures fresh(operations) && operations.Length == n
      ensures forall i | 0 <= i < n :: operations[i] == FREE
    {
      operations := new Entry[n](_ => FREE);
    }

    /** `tfm_crypto_operation_alloc`: takes the first entry not in use. */
    method AllocOperation(kind: OpType, handle: nat, caller: int) returns (status: Status, handle': nat)
      modifies operations
      ensures Outcome(status, handle', operations[..]) == Alloc(old(operations[..]), kind, handle, caller)
    {
      handle' := handle;
      if handle != INVALID_HANDLE {
        return BadState, handle';
      }
      var i := 0;
      while i < operations.Length
        invariant i <= operations.Length && operations[..] == old(operations[..])
        invariant forall j | 0 <= j < i :: operations[j].inUse
      {
        if !operations[i].inUse {
          FirstFreeIs(operations[..], i);
          operations[i] := operations[i].(inUse := true);
          operations[i] := operations[i].(owner := caller);
          operations[i] := operations[i].(kind := kind);
          return Success, i + 1;
        }
        i := i + 1;
      }
      FirstFreeIs(operations[..], i);
      status := NotPermitted;
    }

    /** `tfm_crypto_operation_release`: the handle is cleared before anything is checked. */
    method ReleaseOperation(handle: nat, caller: int) returns (status: Status, handle': nat)
      modifies operations
      ensures Outcome(status, handle', operations[..]) == Release(old(operations[..]), handle, caller)
    {
      handle' := INVALID_HANDLE;
      if handle == INVALID_HANDLE || handle > operations.Length {
        return InvalidArgument, handle';
      }
      var i := handle - 1;
      if operations[i].inUse && operations[i].owner == caller {
        operations[i] := operations[i].(ctx := 0);
        operations[i] := operations[i].(inUse := false);
        operations[i] := operations[i].(kind := NoOperation);
        operations[i] := operations[i].(owner := 0);
        return Success, handle';
      }
      status := InvalidArgument;
    }

    /** `tfm_crypto_operation_lookup`. */
    method LookupOperation(kind: OpType, handle: nat, caller: int) returns (status: Status)
      ensures status == if Found(operations[..], kind, handle, caller) then Success else BadState
    {
      if handle == INVALID_HANDLE || handle > operations.Length {
        return BadState;
      }
      var e := operations[handle - 1];
      if e.inUse && e.kind == kind && e.owner == caller {
        return Success;
      }
      status := BadState;
    }

    /** A backend call on the context behind a handle. */
    method RunBackend(handle: nat, act: Context -> Answer) returns (status: Status)
      requires 1 <= handle <= operations.Length
      modifies operations
      ensures var before := old(operations[..]);
              && status == act(before[handle - 1].ctx).status
              && operations[..] == WithContext(before, handle, act(before[handle - 1].ctx).ctx)
    {
      var a := act(operations[handle - 1].ctx);
      operations[handle - 1] := operations[handle - 1].(ctx := a.ctx);
      status := a.status;
    }

    /** The part common to the setups: allocate, then let the backend set up, and release on failure. */
    method SetUp(kind: OpType, handle: nat, caller: int, act: Context -> Answer) returns (status: Status, cell: nat)
      modifies operations
      ensures Outcome(status, cell, operations[..])
           == Shim(old(operations[..]), Request(kind, Setup(act), handle, true, 0, caller))
    {
      status, cell := AllocOperation(kind, handle, caller);
      if !status.Success? {
        return;
      }
      status := RunBackend(cell, act);
      if !status.Success? {
        var ignored;
        ignored, cell := ReleaseOperation(cell, caller);
      }
    }

    /** Cipher, MAC and AEAD multipart functions share one control flow. */
    method MultipartInterface(kind: OpType, call: Call, handle: nat, hasCell: bool, cell: nat, caller: int)
      returns (status: Status, cell': nat)
      requires !call.Clone?
      modifies operations
      ensures Outcome(status, cell', operations[..])
           == Shim(old(operations[..]), Request(kind, call, handle, hasCell, cell, caller))
    {
      cell' := cell;
      if call.Setup? {
        if !hasCell {
          return ProgrammerError, cell';
        }
        status, cell' := SetUp(kind, handle, caller, call.act);
        return;
      }
      status := LookupOperation(kind, handle, caller);
      if call.Finish? || call.Abort? {
        if !hasCell {
          return ProgrammerError, cell';
        }
        cell' := handle;
      }
      if !status.Success? {
        if call.Abort? {
          status := Success;
        }
        return;
      }
      match call
      case Use(act) =>
        status := RunBackend(handle, act);
      case Finish(act) =>
        status := RunBackend(handle, act);
        if status.Success? {
          var ignored;
          ignored, cell' := ReleaseOperation(cell', caller);
        }
      case Abort(act) =>
        status := RunBackend(handle, act);
        var ignored;
        ignored, cell' := ReleaseOperation(cell', caller);
      case Unknown =>
        status := NotSupported;
    }

    /** `tfm_crypto_hash_interface`: the same flow, and clone, which allocates the target while the source is
        live. */
    method HashInterface(call: Call, handle: nat, hasCell: bool, cell: nat, caller: int)
      returns (status: Status, cell': nat)
      modifies operations
      ensures Outcome(status, cell', operations[..])
           == Shim(old(operations[..]), Request(Hash, call, handle, hasCell, cell, caller))
    {
      if !call.Clone? {
        status, cell' := MultipartInterface(Hash, call, handle, hasCell, cell, caller);
        return;
      }
      cell' := cell;
      status := LookupOperation(Hash, handle, caller);
      if !status.Success? {
        return;
      }
      if !hasCell {
        return ProgrammerError, cell';
      }
      status, cell' := AllocOperation(Hash, call.target, caller);
      if !status.Success? {
        return;
      }
      var a := call.act(operations[handle - 1].ctx);
      operations[cell' - 1] := operations[cell' - 1].(ctx := a.ctx);
      status := a.status;
      if !status.Success? {
        var ignored;
        ignored, cell' := ReleaseOperation(cell', caller);
      }
    }

    /** `tfm_crypto_key_derivation_interface`: a failing lookup falls through to abort, which checks its buffer
        first. */
    method KeyDerivationInterface(call: Call, handle: nat, hasCell: bool, cell: nat, caller: int)
      returns (status: Status, cell': nat)
      requires !call.Clone? && !call.Finish?
      modifies operations
      ensures Outcome(status, cell', operations[..])
           == Shim(old(operations[..]), Request(KeyDerivation, call, handle, hasCell, cell, caller))
    {
      cell' := cell;
      if call.Setup? {
        if !hasCell {
          return ProgrammerError, cell';
        }
        status, cell' := SetUp(KeyDerivation, handle, caller, call.act);
        return;
      }
      status := LookupOperation(KeyDerivation, handle, caller);
      if !status.Success? && !call.Abort? {
        return;
      }
      match call
      case Use(act) =>
        status := RunBackend(handle, act);
      case Abort(act) =>
        if !hasCell {
          return ProgrammerError, cell';
        }
        cell' := handle;
        if !status.Success? {
          return Success, cell';
        }
        status := RunBackend(handle, act);
        var ignored;
        ignored, cell' := ReleaseOperation(cell', caller);
      case Unknown =>
        status := NotSupported;
    }
  }

  /** The search loop stops at the first free entry. */
  lemma {:induction false} FirstFreeIs(ops: seq<Entry>, i: nat)
    requires i <= |ops| && (i < |ops| ==> !ops[i].inUse)
    requires forall j | 0 <= j < i :: ops[j].inUse
    ensures FirstFree(ops) == i
  {
    if i > 0 {
      FirstFreeIs(ops[1..], i - 1);
    }
  }
}
