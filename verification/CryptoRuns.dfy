/** Clients and the crypto service together (src/interface/src/tfm_crypto_api.c and the shims): every run of
    calls on zero-initialised operation objects behaves as if each object carried its own context. */
module CryptoRuns {
  import opened CryptoTable

  /** A client's operation object; only the handle changes. */
  datatype Obj = Obj(owner: int, kind: OpType, handle: nat)

  datatype Sys = Sys(ops: seq<Entry>, objs: seq<Obj>)

  datatype Step =
    | Declare(owner: int, kind: OpType)                         // a zero-initialised operation object
    | Invoke(o: nat, call: Call)                                // setup, use, finish or abort on an object
    | CloneTo(o: nat, t: nat, act: Context -> Answer)           // psa_hash_clone
    | Refused(o: nat)                                           // the service gives up before it dispatches

  predicate Enabled(s: Sys, st: Step) {
    match st
    case Declare(_, kind) => !kind.NoOperation?
    case Invoke(o, call) => o < |s.objs| && !call.Clone? && !call.Unknown?
    case CloneTo(o, t, _) => o < |s.objs| && t < |s.objs| && s.objs[o].kind.Hash? && s.objs[t].kind.Hash? && s.objs[o].owner == s.objs[t].owner
    case Refused(o) => o < |s.objs|
  }

  /** The request a call on object `o` sends. The handle travels in the request and, where the call may change
      it, in the first output buffer. A mapped buffer is the client's own memory; otherwise it is scratch
      memory, all zero. */
  function Message(mapped: bool, s: Sys, o: nat, call: Call): Request
    requires o < |s.objs|
  {
    var obj := s.objs[o];
    Request(obj.kind, call, obj.handle, !call.Use?, if mapped then obj.handle else 0, obj.owner)
  }

  /** The client's handle afterwards: a mapped buffer shows every store of the service, the other path copies
      the buffer back on success only. */
  function HandleBack(mapped: bool, call: Call, before: nat, o: Outcome): nat {
    if !call.Use? && (mapped || o.status.Success?) then o.handle else before
  }

  function CloneMessage(mapped: bool, s: Sys, o: nat, t: nat, act: Context -> Answer): Request
    requires o < |s.objs| && t < |s.objs|
  {
    Request(Hash, Clone(act, s.objs[t].handle), s.objs[o].handle, true, if mapped then s.objs[t].handle else 0, s.objs[o].owner)
  }

  function Apply(mapped: bool, s: Sys, st: Step): (r: (Status, Sys))
    requires Enabled(s, st)
  {
    match st
    case Declare(owner, kind) => (Success, s.(objs := s.objs + [Obj(owner, kind, INVALID_HANDLE)]))
    case Invoke(o, call) =>
      var r := Shim(s.ops, Message(mapped, s, o, call));
      (r.status, Sys(r.ops, s.objs[o := s.objs[o].(handle := HandleBack(mapped, call, s.objs[o].handle, r))]))
    case CloneTo(o, t, act) =>
      if s.objs[t].handle != INVALID_HANDLE then (BadState, s)
      else
        var r := Shim(s.ops, CloneMessage(mapped, s, o, t, act));
        (r.status, Sys(r.ops, s.objs[t := s.objs[t].(handle := HandleBack(mapped, Clone(act, 0), s.objs[t].handle, r))]))
    case Refused(_) => (Backend(0), s)
  }

  // ---- Agreement of handles and table ----------------------------------------------------------

  predicate Holds(s: Sys, o: nat, h: nat) {
    o < |s.objs| && h != INVALID_HANDLE && s.objs[o].handle == h
  }

  /** Non-zero handles and entries in use correspond one to one, with matching owner and type. */
  ghost predicate Agreement(s: Sys) {
    && Clean(s.ops)
    && (forall o: nat, h: nat | Holds(s, o, h) :: Found(s.ops, s.objs[o].kind, h, s.objs[o].owner))
    && (forall o: nat, p: nat, h: nat | Holds(s, o, h) && Holds(s, p, h) :: o == p)
    && (forall h: nat | IsLive(s.ops, h) :: exists o: nat :: Holds(s, o, h))
  }

  /** The one kind of call that breaks it: an abort on a live handle whose backend part fails, when the handle
      is only copied back on success. */
  predicate Detaches(mapped: bool, s: Sys, st: Step)
    requires Enabled(s, st)
  {
    && !mapped && st.Invoke? && st.call.Abort?
    && Found(s.ops, s.objs[st.o].kind, s.objs[st.o].handle, s.objs[st.o].owner)
    && !st.call.act(s.ops[s.objs[st.o].handle - 1].ctx).status.Success?
  }

  // ---- The simple form: every object carries its own context -----------------------------------

  datatype Own = Idle | Active(ctx: Context)

  ghost function View(s: Sys): (v: seq<Own>)
    ensures |v| == |s.objs|
    ensures forall o | 0 <= o < |v| :: v[o] == OwnOf(s, o)
  {
    seq(|s.objs|, o requires 0 <= o < |s.objs| => OwnOf(s, o))
  }

  function OwnOf(s: Sys, o: nat): Own
    requires o < |s.objs|
  {
    var h := s.objs[o].handle;
    if 1 <= h <= |s.ops| then Active(s.ops[h - 1].ctx) else Idle
  }

  ghost function ActiveObjects(v: seq<Own>): set<nat> {
    set o: nat | o < |v| && v[o].Active?
  }

  /** One call in the simple form; at most `n` objects can be active. */
  ghost function Ideal(v: seq<Own>, n: nat, st: Step): (r: (Status, seq<Own>))
    requires st.Invoke? ==> st.o < |v| && !st.call.Clone? && !st.call.Unknown?
    requires st.CloneTo? ==> st.o < |v| && st.t < |v|
  {
    var full := |ActiveObjects(v)| == n;
    match st
    case Declare(_, _) => (Success, v + [Idle])
    case Invoke(o, Setup(act)) =>
      if v[o].Active? then (BadState, v)
      else if full then (NotPermitted, v)
      else (act(0).status, if act(0).status.Success? then v[o := Active(act(0).ctx)] else v)
    case Invoke(o, Use(act)) =>
      if v[o].Idle? then (BadState, v)
      else (act(v[o].ctx).status, v[o := Active(act(v[o].ctx).ctx)])
    case Invoke(o, Finish(act)) =>
      if v[o].Idle? then (BadState, v)
      else
        var a := act(v[o].ctx);
        (a.status, v[o := if a.status.Success? then Idle else Active(a.ctx)])
    case Invoke(o, Abort(act)) =>
      if v[o].Idle? then (Success, v)
      else (act(v[o].ctx).status, v[o := Idle])
    case CloneTo(o, t, act) =>
      if v[t].Active? || v[o].Idle? then (BadState, v)
      else if full then (NotPermitted, v)
      else
        var a := act(v[o].ctx);
        (a.status, if a.status.Success? then v[t := Active(a.ctx)] else v)
    case Refused(_) => (Backend(0), v)
  }

  // ---- The four ways a call changes the system -------------------------------------------------

  ghost function Init(n: nat): Sys {
    Sys(seq(n, _ => FREE), [])
  }

  lemma ContextChanges(s: Sys, s': Sys, o: nat, c: Context)
    requires Agreement(s) && o < |s.objs| && s.objs[o].handle != INVALID_HANDLE
    requires Holds(s, o, s.objs[o].handle) && Found(s.ops, s.objs[o].kind, s.objs[o].handle, s.objs[o].owner)
    requires s' == s.(ops := WithContext(s.ops, s.objs[o].handle, c))
    ensures Agreement(s') && View(s') == View(s)[o := Active(c)]
  {
    forall p: nat, h: nat | Holds(s', p, h)
      ensures Found(s'.ops, s'.objs[p].kind, h, s'.objs[p].owner)
    {
      assert Holds(s, p, h);
    }
    forall p: nat, q: nat, h: nat | Holds(s', p, h) && Holds(s', q, h)
      ensures p == q
    {
      assert Holds(s, p, h) && Holds(s, q, h);
    }
    forall h: nat | IsLive(s'.ops, h)
      ensures exists p: nat :: Holds(s', p, h)
    {
      assert IsLive(s.ops, h);
      var p: nat :| Holds(s, p, h);
      assert Holds(s', p, h);
    }
    forall p: nat | p < |s.objs|
      ensures OwnOf(s', p) == if p == o then Active(c) else OwnOf(s, p)
    {
      if s.objs[p].handle == s.objs[o].handle {
        assert Holds(s, p, s.objs[o].handle);
      }
    }
  }

  lemma ObjectStarts(s: Sys, s': Sys, o: nat, i: nat, c: Context)
    requires Agreement(s) && o < |s.objs| && s.objs[o].handle == INVALID_HANDLE
    requires i < |s.ops| && !s.ops[i].inUse
    requires s'.ops == s.ops[i := Entry(true, s.objs[o].owner, s.objs[o].kind, c)]
    requires s'.objs == s.objs[o := s.objs[o].(handle := i + 1)]
    ensures Agreement(s') && View(s') == View(s)[o := Active(c)]
  {
    forall p: nat, h: nat | Holds(s', p, h)
      ensures Found(s'.ops, s'.objs[p].kind, h, s'.objs[p].owner) && (h == i + 1 <==> p == o)
    {
      if p != o {
        assert Holds(s, p, h);
      }
    }
    forall p: nat, q: nat, h: nat | Holds(s', p, h) && Holds(s', q, h)
      ensures p == q
    {
      if h != i + 1 {
        assert Holds(s, p, h) && Holds(s, q, h);
      }
    }
    forall h: nat | IsLive(s'.ops, h)
      ensures exists p: nat :: Holds(s', p, h)
    {
      if h == i + 1 {
        assert Holds(s', o, h);
      } else {
        assert IsLive(s.ops, h);
        var p: nat :| Holds(s, p, h);
        assert Holds(s', p, h);
      }
    }
    forall p: nat | p < |s.objs|
      ensures OwnOf(s', p) == if p == o then Active(c) else OwnOf(s, p)
    {
      assert s.objs[p].handle != INVALID_HANDLE ==> Holds(s, p, s.objs[p].handle);
    }
  }

  lemma ObjectEnds(s: Sys, s': Sys, o: nat)
    requires Agreement(s) && o < |s.objs| && s.objs[o].handle != INVALID_HANDLE
    requires Holds(s, o, s.objs[o].handle) && Found(s.ops, s.objs[o].kind, s.objs[o].handle, s.objs[o].owner)
    requires s'.ops == s.ops[s.objs[o].handle - 1 := FREE]
    requires s'.objs == s.objs[o := s.objs[o].(handle := INVALID_HANDLE)]
    ensures Agreement(s') && View(s') == View(s)[o := Idle]
  {
    var g := s.objs[o].handle;
    forall p: nat, h: nat | Holds(s', p, h)
      ensures Found(s'.ops, s'.objs[p].kind, h, s'.objs[p].owner) && h != g
    {
      assert p != o && Holds(s, p, h);
    }
    forall p: nat, q: nat, h: nat | Holds(s', p, h) && Holds(s', q, h)
      ensures p == q
    {
      assert Holds(s, p, h) && Holds(s, q, h);
    }
    forall h: nat | IsLive(s'.ops, h)
      ensures exists p: nat :: Holds(s', p, h)
    {
      assert h != g && IsLive(s.ops, h);
      var p: nat :| Holds(s, p, h);
      assert Holds(s', p, h);
    }
    forall p: nat | p < |s.objs|
      ensures OwnOf(s', p) == if p == o then Idle else OwnOf(s, p)
    {
      assert s.objs[p].handle != INVALID_HANDLE ==> Holds(s, p, s.objs[p].handle);
    }
  }

  lemma ObjectAppears(s: Sys, s': Sys, owner: int, kind: OpType)
    requires Agreement(s) && s' == s.(objs := s.objs + [Obj(owner, kind, INVALID_HANDLE)])
    ensures Agreement(s') && View(s') == View(s) + [Idle]
  {
    forall p: nat, h: nat
      ensures Holds(s', p, h) <==> Holds(s, p, h)
    {
    }
    forall p: nat, h: nat | Holds(s', p, h)
      ensures Found(s'.ops, s'.objs[p].kind, h, s'.objs[p].owner)
    {
      assert Holds(s, p, h);
    }
    forall h: nat | IsLive(s'.ops, h)
      ensures exists p: nat :: Holds(s', p, h)
    {
      var p: nat :| Holds(s, p, h);
      assert Holds(s', p, h);
    }
    forall p: nat | p < |s'.objs|
      ensures OwnOf(s', p) == (View(s) + [Idle])[p]
    {
    }
  }

  // ---- No leak: entries in use are exactly as many as active objects ---------------------------

  ghost function LiveHandles(ops: seq<Entry>): set<nat> {
    set h: nat | 1 <= h <= |ops| && IsLive(ops, h)
  }

  /** Distinct objects with distinct handles: as many handles as objects. */
  lemma {:induction false} AsManyHandles(s: Sys, a: set<nat>, b: set<nat>)
    requires forall o | o in a :: o < |s.objs| && s.objs[o].handle in b
    requires forall h | h in b :: exists o :: o in a && s.objs[o].handle == h
    requires forall o, p | o in a && p in a && s.objs[o].handle == s.objs[p].handle :: o == p
    ensures |a| == |b|
    decreases a
  {
    if a == {} {
      assert forall h :: h !in b;
    } else {
      var o :| o in a;
      var h := s.objs[o].handle;
      forall g | g in b - {h}
        ensures exists p :: p in a - {o} && s.objs[p].handle == g
      {
        var p :| p in a && s.objs[p].handle == g;
        assert p in a - {o};
      }
      AsManyHandles(s, a - {o}, b - {h});
    }
  }

  lemma ActiveMatchesLive(s: Sys)
    requires Agreement(s)
    ensures |ActiveObjects(View(s))| == |LiveHandles(s.ops)|
  {
    var a, b := ActiveObjects(View(s)), LiveHandles(s.ops);
    forall o | o in a
      ensures o < |s.objs| && s.objs[o].handle in b
    {
      assert Holds(s, o, s.objs[o].handle);
    }
    forall h | h in b
      ensures exists o :: o in a && s.objs[o].handle == h
    {
      var o: nat :| Holds(s, o, h);
      assert o in a && s.objs[o].handle == h;
    }
    forall o, p | o in a && p in a && s.objs[o].handle == s.objs[p].handle
      ensures o == p
    {
      assert Holds(s, o, s.objs[o].handle) && Holds(s, p, s.objs[o].handle);
    }
    AsManyHandles(s, a, b);
  }

  ghost function UpTo(n: nat): (a: set<nat>)
    ensures |a| == n
    ensures forall h: nat :: h in a <==> 1 <= h <= n
  {
    if n == 0 then {} else UpTo(n - 1) + {n}
  }

  lemma Smaller(a: set<nat>, b: set<nat>)
    requires a <= b
    ensures |a| <= |b| && (|a| == |b| ==> a == b)
  {
    assert b == a + (b - a);
    assert |b| == |a| + |b - a|;
  }

  /** The service runs out of contexts exactly when as many objects are active as it has contexts. */
  lemma FullIffAllActive(s: Sys)
    requires Agreement(s)
    ensures FirstFree(s.ops) == |s.ops| <==> |ActiveObjects(View(s))| == |s.ops|
    ensures |ActiveObjects(View(s))| <= |s.ops|
  {
    ActiveMatchesLive(s);
    var all := UpTo(|s.ops|);
    Smaller(LiveHandles(s.ops), all);
    var i := FirstFree(s.ops);
    if i == |s.ops| {
      forall h | h in all
        ensures h in LiveHandles(s.ops)
      {
        assert s.ops[h - 1].inUse;
      }
      assert LiveHandles(s.ops) == all;
    } else {
      assert i + 1 in all && i + 1 !in LiveHandles(s.ops);
    }
  }

  // ---- Steps and runs --------------------------------------------------------------------------

  /** An object whose handle is clear is idle, any other is active with the context of its entry. */
  lemma HandleTells(s: Sys, o: nat)
    requires Agreement(s) && o < |s.objs|
    ensures var obj := s.objs[o];
            && (View(s)[o].Active? <==> obj.handle != INVALID_HANDLE)
            && (Found(s.ops, obj.kind, obj.handle, obj.owner) <==> obj.handle != INVALID_HANDLE)
            && (obj.handle != INVALID_HANDLE ==> Holds(s, o, obj.handle) && View(s)[o] == Active(s.ops[obj.handle - 1].ctx))
  {
    assert s.objs[o].handle != INVALID_HANDLE ==> Holds(s, o, s.objs[o].handle);
  }

  lemma SetupRefines(mapped: bool, s: Sys, o: nat, act: Context -> Answer)
    requires Agreement(s) && o < |s.objs|
    ensures var st := Invoke(o, Setup(act));
            var (status, s') := Apply(mapped, s, st);
            Agreement(s') && (status, View(s')) == Ideal(View(s), |s.ops|, st)
  {
    var (status, s') := Apply(mapped, s, Invoke(o, Setup(act)));
    HandleTells(s, o);
    FullIffAllActive(s);
    var i := FirstFree(s.ops);
    if s.objs[o].handle == INVALID_HANDLE && i < |s.ops| {
      if act(0).status.Success? {
        ObjectStarts(s, s', o, i, act(0).ctx);
      } else {
        assert s'.ops == s.ops && s'.objs == s.objs;
      }
    } else {
      assert s'.ops == s.ops && s'.objs == s.objs;
    }
  }

  /** The service's half of a clone onto an idle object. */
  lemma CloneShim(mapped: bool, s: Sys, o: nat, t: nat, act: Context -> Answer)
    requires Agreement(s) && Enabled(s, CloneTo(o, t, act)) && s.objs[t].handle == INVALID_HANDLE
    ensures var r := Shim(s.ops, CloneMessage(mapped, s, o, t, act));
            var i, h := FirstFree(s.ops), s.objs[o].handle;
            && (h == INVALID_HANDLE ==> r == Outcome(BadState, 0, s.ops))
            && (h != INVALID_HANDLE && i == |s.ops| ==> r == Outcome(NotPermitted, 0, s.ops))
            && (h != INVALID_HANDLE && i < |s.ops| ==>
                  && 1 <= h <= |s.ops|
                  && var a := act(s.ops[h - 1].ctx);
                     if a.status.Success?
                     then r == Outcome(Success, i + 1, s.ops[i := Entry(true, s.objs[o].owner, Hash, a.ctx)])
                     else r == Outcome(a.status, INVALID_HANDLE, s.ops))
  {
    HandleTells(s, o);
    var i, h := FirstFree(s.ops), s.objs[o].handle;
    if h != INVALID_HANDLE && i < |s.ops| {
      assert i != h - 1;
      assert s.ops[i] == FREE;
      var e := Entry(true, s.objs[o].owner, Hash, 0);
      var a := act(s.ops[h - 1].ctx);
      assert WithContext(s.ops[i := e], i + 1, a.ctx) == s.ops[i := e.(ctx := a.ctx)];
      assert s.ops[i := e.(ctx := a.ctx)][i := FREE] == s.ops;
    }
  }

  lemma CloneRefines(mapped: bool, s: Sys, o: nat, t: nat, act: Context -> Answer)
    requires Agreement(s) && Enabled(s, CloneTo(o, t, act))
    ensures var st := CloneTo(o, t, act);
            var (status, s') := Apply(mapped, s, st);
            Agreement(s') && (status, View(s')) == Ideal(View(s), |s.ops|, st)
  {
    var (status, s') := Apply(mapped, s, CloneTo(o, t, act));
    HandleTells(s, o);
    HandleTells(s, t);
    FullIffAllActive(s);
    if s.objs[t].handle == INVALID_HANDLE {
      CloneShim(mapped, s, o, t, act);
      if status.Success? {
        ObjectStarts(s, s', t, FirstFree(s.ops), act(s.ops[s.objs[o].handle - 1].ctx).ctx);
      } else {
        assert s'.objs == s.objs;
      }
    }
  }

  lemma UseRefines(mapped: bool, s: Sys, o: nat, act: Context -> Answer)
    requires Agreement(s) && o < |s.objs|
    ensures var st := Invoke(o, Use(act));
            var (status, s') := Apply(mapped, s, st);
            Agreement(s') && (status, View(s')) == Ideal(View(s), |s.ops|, st)
  {
    var (status, s') := Apply(mapped, s, Invoke(o, Use(act)));
    HandleTells(s, o);
    assert s'.objs == s.objs;
    if s.objs[o].handle != INVALID_HANDLE {
      ContextChanges(s, s', o, act(s.ops[s.objs[o].handle - 1].ctx).ctx);
    }
  }

  lemma FinishRefines(mapped: bool, s: Sys, o: nat, act: Context -> Answer)
    requires Agreement(s) && o < |s.objs|
    ensures var st := Invoke(o, Finish(act));
            var (status, s') := Apply(mapped, s, st);
            Agreement(s') && (status, View(s')) == Ideal(View(s), |s.ops|, st)
  {
    var (status, s') := Apply(mapped, s, Invoke(o, Finish(act)));
    HandleTells(s, o);
    if s.objs[o].handle == INVALID_HANDLE {
      assert s'.ops == s.ops && s'.objs == s.objs;
    } else {
      var a := act(s.ops[s.objs[o].handle - 1].ctx);
      if a.status.Success? {
        ObjectEnds(s, s', o);
      } else {
        assert s'.objs == s.objs;
        ContextChanges(s, s', o, a.ctx);
      }
    }
  }

  /** The exception: if the handle is only copied back on success and the backend's abort fails, the context
      is gone and the client still holds its handle. */
  lemma AbortRefines(mapped: bool, s: Sys, o: nat, act: Context -> Answer)
    requires Agreement(s) && o < |s.objs|
    ensures var st := Invoke(o, Abort(act));
            var (status, s') := Apply(mapped, s, st);
            && (Agreement(s') <==> !Detaches(mapped, s, st))
            && (!Detaches(mapped, s, st) ==> (status, View(s')) == Ideal(View(s), |s.ops|, st))
  {
    var (status, s') := Apply(mapped, s, Invoke(o, Abort(act)));
    HandleTells(s, o);
    if s.objs[o].handle == INVALID_HANDLE {
      assert s'.ops == s.ops && s'.objs == s.objs;
    } else if Detaches(mapped, s, Invoke(o, Abort(act))) {
      assert Holds(s', o, s.objs[o].handle);
    } else {
      ObjectEnds(s, s', o);
    }
  }

  /** Every call answers and acts as in the simple form and keeps handles and table in agreement, exactly
      unless it is a failing abort on the copy-back path. */
  lemma StepRefines(mapped: bool, s: Sys, st: Step)
    requires Agreement(s) && Enabled(s, st)
    ensures var (status, s') := Apply(mapped, s, st);
            && (Agreement(s') <==> !Detaches(mapped, s, st))
            && |s'.ops| == |s.ops|
            && (!Detaches(mapped, s, st) ==> (status, View(s')) == Ideal(View(s), |s.ops|, st))
  {
    match st
    case Declare(owner, kind) => ObjectAppears(s, Apply(mapped, s, st).1, owner, kind);
    case Invoke(o, Setup(act)) => SetupRefines(mapped, s, o, act); ShimKeepsClean(s.ops, Message(mapped, s, o, st.call));
    case Invoke(o, Use(act)) => UseRefines(mapped, s, o, act); ShimKeepsClean(s.ops, Message(mapped, s, o, st.call));
    case Invoke(o, Finish(act)) => FinishRefines(mapped, s, o, act); ShimKeepsClean(s.ops, Message(mapped, s, o, st.call));
    case Invoke(o, Abort(act)) => AbortRefines(mapped, s, o, act); ShimKeepsClean(s.ops, Message(mapped, s, o, st.call));
    case CloneTo(o, t, act) => CloneRefines(mapped, s, o, t, act); ShimKeepsClean(s.ops, CloneMessage(mapped, s, o, t, act));
    case Refused(_) =>
  }

  /** A run of calls from state `s`: every call is enabled where it happens and yields `statuses`. */
  ghost predicate Run(mapped: bool, s: Sys, steps: seq<Step>, statuses: seq<Status>, s': Sys)
    decreases |steps|
  {
    && |statuses| == |steps|
    && (steps == [] ==> s' == s)
    && (steps != [] ==>
          && Enabled(s, steps[0]) && statuses[0] == Apply(mapped, s, steps[0]).0
          && Run(mapped, Apply(mapped, s, steps[0]).1, steps[1..], statuses[1..], s'))
  }

  /** The same run in the simple form. */
  ghost predicate IdealRun(v: seq<Own>, n: nat, steps: seq<Step>, statuses: seq<Status>, v': seq<Own>)
    decreases |steps|
  {
    && |statuses| == |steps|
    && (steps == [] ==> v' == v)
    && (steps != [] ==>
          var st := steps[0];
          && (st.Invoke? ==> st.o < |v| && !st.call.Clone? && !st.call.Unknown?)
          && (st.CloneTo? ==> st.o < |v| && st.t < |v|)
          && statuses[0] == Ideal(v, n, st).0
          && IdealRun(Ideal(v, n, st).1, n, steps[1..], statuses[1..], v'))
  }

  /** No call of the run detaches a handle. A caller knows this from the answers: no abort on a live handle
      ends with an error on the copy-back path. */
  ghost predicate NoDetach(mapped: bool, s: Sys, steps: seq<Step>, statuses: seq<Status>, s': Sys)
    requires Run(mapped, s, steps, statuses, s')
    decreases |steps|
  {
    steps != [] ==>
      && !Detaches(mapped, s, steps[0])
      && NoDetach(mapped, Apply(mapped, s, steps[0]).1, steps[1..], statuses[1..], s')
  }

  /** Handles and table agree in every state of the run. */
  ghost predicate AlwaysAgrees(mapped: bool, s: Sys, steps: seq<Step>, statuses: seq<Status>, s': Sys)
    requires Run(mapped, s, steps, statuses, s')
    decreases |steps|
  {
    && Agreement(s)
    && (steps != [] ==> AlwaysAgrees(mapped, Apply(mapped, s, steps[0]).1, steps[1..], statuses[1..], s'))
  }

  /** Over every run, of any clients, objects and backend answers, handles and table agree throughout exactly
      when no call detaches a handle. */
  lemma {:induction false} AgreesUnlessDetached(mapped: bool, s: Sys, steps: seq<Step>, statuses: seq<Status>, s': Sys)
    requires Agreement(s) && Run(mapped, s, steps, statuses, s')
    ensures AlwaysAgrees(mapped, s, steps, statuses, s') <==> NoDetach(mapped, s, steps, statuses, s')
    decreases |steps|
  {
    if steps != [] {
      StepRefines(mapped, s, steps[0]);
      if !Detaches(mapped, s, steps[0]) {
        AgreesUnlessDetached(mapped, Apply(mapped, s, steps[0]).1, steps[1..], statuses[1..], s');
      }
    }
  }

  /** With mapped buffers no call ever does. */
  lemma {:induction false} MappedNeverDetaches(s: Sys, steps: seq<Step>, statuses: seq<Status>, s': Sys)
    requires Run(true, s, steps, statuses, s')
    ensures NoDetach(true, s, steps, statuses, s')
    decreases |steps|
  {
    if steps != [] {
      MappedNeverDetaches(Apply(true, s, steps[0]).1, steps[1..], statuses[1..], s');
    }
  }

  /** In such a run the service and the simple form give the same answers and end in the same state. */
  lemma {:induction false} RunRefines(mapped: bool, s: Sys, steps: seq<Step>, statuses: seq<Status>, s': Sys)
    requires Agreement(s) && Run(mapped, s, steps, statuses, s') && NoDetach(mapped, s, steps, statuses, s')
    ensures Agreement(s') && |s'.ops| == |s.ops|
    ensures IdealRun(View(s), |s.ops|, steps, statuses, View(s'))
    decreases |steps|
  {
    if steps != [] {
      StepRefines(mapped, s, steps[0]);
      RunRefines(mapped, Apply(mapped, s, steps[0]).1, steps[1..], statuses[1..], s');
    }
  }

  /** The service starts in agreement, with all contexts free. */
  lemma InitAgrees(n: nat)
    ensures Agreement(Init(n)) && View(Init(n)) == [] && |Init(n).ops| == n
  {
  }

  /** After any run from the start, if every object is idle then every context is free and all zero. */
  lemma NothingLeaks(mapped: bool, n: nat, steps: seq<Step>, statuses: seq<Status>, s': Sys)
    requires Run(mapped, Init(n), steps, statuses, s') && NoDetach(mapped, Init(n), steps, statuses, s')
    requires forall o | 0 <= o < |s'.objs| :: s'.objs[o].handle == INVALID_HANDLE
    ensures s'.ops == Init(n).ops
  {
    InitAgrees(n);
    RunRefines(mapped, Init(n), steps, statuses, s');
    forall i | 0 <= i < n
      ensures s'.ops[i] == FREE
    {
      assert s'.ops[i].inUse ==> IsLive(s'.ops, i + 1);
    }
  }

  function Opened(c: Context): Answer { Answer(Success, 7) }

  function Failed(c: Context): Answer { Answer(Backend(-1), c) }

  /** The copy-back path without that assumption: one object is set up and its abort fails in the backend; a
      second object is then given the same context as the first. */
  lemma StaleHandle(owner: int)
    ensures var s := Sys([FREE], [Obj(owner, Hash, 0), Obj(owner, Hash, 0)]);
            var first := Apply(false, s, Invoke(0, Setup(Opened))).1;
            var aborted := Apply(false, first, Invoke(0, Abort(Failed))).1;
            var again := Apply(false, aborted, Invoke(1, Setup(Opened))).1;
            Agreement(s) && again.objs[0].handle == again.objs[1].handle == 1
  {
    var s := Sys([FREE], [Obj(owner, Hash, 0), Obj(owner, Hash, 0)]);
    var first := Apply(false, s, Invoke(0, Setup(Opened))).1;
    assert first.ops == [Entry(true, owner, Hash, 7)];
    var aborted := Apply(false, first, Invoke(0, Abort(Failed))).1;
    assert aborted.ops == [FREE] && aborted.objs[0].handle == 1;
  }
}
