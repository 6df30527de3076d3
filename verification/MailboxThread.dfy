/** The mailbox with a dedicated thread (tfm_ns_mailbox_thread.c) as a labelled transition system.

    Client threads put requests on a message queue and sleep; the runner thread moves requests into
    mailbox slots; the secure core answers slots; the reply interrupt copies answers through the
    pointers stored in the slot. Every spin-locked section, every critical section and every
    separate access of the runner or of the interrupt handler to shared data is one step, so the
    theorems hold for every interleaving, any number of clients and any use of the client stacks
    after a call has returned. */
module MailboxThread {
  import opened SlotMask
  import opened MailboxTypes

  /** `struct ns_mailbox_req_t`: what a client hands to the runner. */
  datatype Req = Req(callType: nat, paramsPtr: Addr, clientId: int, owner: Task, reply: Addr, wokenFlag: Addr)

  /** `struct mailbox_slot_t` together with `struct ns_mailbox_slot_t`. */
  datatype Slot = Slot(msg: Msg, reply: Reply, owner: Task, replyPtr: Addr, wokenPtr: Addr)

  /** Program counter and locals of the runner thread. */
  datatype Runner =
    | Receiving
    | Received(t: Ticket, req: Req)
    | Sleeping(t: Ticket, req: Req)
    | Sees(t: Ticket, req: Req, status: set<nat>)
    | Holds(t: Ticket, req: Req, idx: nat)
    | MsgFilled(t: Ticket, req: Req, idx: nat)
    | NsFilled(t: Ticket, req: Req, idx: nat)

  /** Locals of the reply interrupt: the captured bits still to handle, the slots already woken, and
      whether the reply of the lowest captured slot has been copied out. */
  datatype Isr = Off | On(left: set<nat>, done: set<nat>, copied: bool)

  // ---- History ------------------------------------------------------------------------------

  /** The phase a slot is in, with the call it serves. */
  datatype Phase =
    | Empty
    | Filling(t: Ticket)
    | Pending(t: Ticket)
    | AtSecure(t: Ticket)
    | Answered(t: Ticket)
    | Replied(t: Ticket)
    | Captured(t: Ticket)
    | Copied(t: Ticket)
    | Woken

  /** Where the request of a call that has not returned yet is; a position in the message queue counts
      from the first request ever sent. */
  datatype Where = Queued(pos: nat) | AtRunner | InSlot(i: nat) | Done

  /** A call that is still inside its wait loop. */
  datatype Call = Call(req: Req, msg: Msg, at: Where)

  datatype Item = Item(t: Ticket, req: Req)

  datatype Sys = Sys(
    slots: seq<Slot>,
    empty: set<nat>,
    pend: set<nat>,
    replied: set<nat>,
    isFull: bool,
    mq: seq<Item>,
    received: nat,                 // requests taken from the message queue so far
    runner: Runner,
    isr: Isr,
    secure: map<nat, Msg>,         // messages the secure core has taken, by slot
    params: map<Addr, Params>,     // client memory
    replies: map<Addr, Reply>,
    flags: map<Addr, bool>,        // true is WOKEN_UP
    phase: seq<Phase>,             // history from here on
    calls: map<Ticket, Call>,
    next: Ticket,
    sent: map<Ticket, Msg>,
    served: map<Ticket, Served>,
    returned: map<Ticket, Reply>)

  predicate Initial(s: Sys) {
    && 1 <= |s.slots| <= WIDTH
    && s.phase == seq(|s.slots|, _ => Empty)
    && s.empty == Slots(AllSlots(|s.slots|))
    && s.pend == {} && s.replied == {} && !s.isFull
    && s.mq == [] && s.received == 0 && s.runner == Receiving && s.isr == Off && s.secure == map[]
    && s.calls == map[] && s.next == 0 && s.sent == map[] && s.served == map[] && s.returned == map[]
  }

  // ---- Steps --------------------------------------------------------------------------------

  datatype Step =
    | ClientCall(req: Req, p: Params, accepted: bool)
    | ClientReturn(t: Ticket)
    | RunnerReceive
    | RunnerRead
    | RunnerWake
    | RunnerAcquire
    | RunnerFillMsg
    | RunnerFillNs
    | RunnerPend
    | IsrCapture
    | IsrCopy
    | IsrWake
    | IsrFinish
    | SecureTake(i: nat)
    | SecureAnswer(i: nat, r: Reply)
    | SecurePublish(i: nat)
    | ReuseParams(a: Addr, p: Params)
    | ReuseReply(a: Addr, r: Reply)
    | ReuseFlag(a: Addr, f: bool)

  /** No call in progress writes to the reply or the flag of this request. Parameters are only read, so calls
      may share them: then they are the parameters the other call submitted. */
  predicate Unlent(s: Sys, req: Req, p: Params) {
    forall t | t in s.calls ::
      && s.calls[t].req.reply != req.reply
      && s.calls[t].req.wokenFlag != req.wokenFlag
      && (s.calls[t].req.paramsPtr == req.paramsPtr ==> req.paramsPtr in s.params && s.params[req.paramsPtr] == p)
  }

  predicate Enabled(s: Sys, step: Step) {
    match step
    case ClientCall(req, p, accepted) =>
      // the woken flag is a local of the call; the message queue holds one request per slot
      && req.wokenFlag != NULL
      && Unlent(s, req, p)
      && (accepted ==> |s.mq| < |s.slots|)
    case ClientReturn(t) =>
      t in s.calls && s.calls[t].req.wokenFlag in s.flags && s.flags[s.calls[t].req.wokenFlag]
    case RunnerReceive => s.runner.Receiving? && s.mq != []
    case RunnerRead => s.runner.Received?
    case RunnerWake => s.runner.Sleeping?
    case RunnerAcquire => s.runner.Sees?
    case RunnerFillMsg => s.runner.Holds?
    case RunnerFillNs => s.runner.MsgFilled?
    case RunnerPend => s.runner.NsFilled?
    case IsrCapture => s.isr.Off?
    case IsrCopy => s.isr.On? && s.isr.left != {} && !s.isr.copied
    case IsrWake => s.isr.On? && s.isr.left != {} && s.isr.copied
    case IsrFinish => s.isr.On? && s.isr.left == {}
    // the secure core takes pending slots only and answers each slot it took once
    case SecureTake(i) => i in s.pend && i < |s.slots|
    case SecureAnswer(i, _) => i in s.secure && i < |s.slots| && i < |s.phase| && s.phase[i].AtSecure?
    case SecurePublish(i) => i in s.secure && i < |s.slots| && i < |s.phase| && s.phase[i].Answered?
    // memory that no call has lent out may hold anything at any time
    case ReuseParams(a, _) => forall t | t in s.calls :: s.calls[t].req.paramsPtr != a
    case ReuseReply(a, _) => forall t | t in s.calls :: s.calls[t].req.reply != a
    case ReuseFlag(a, _) => forall t | t in s.calls :: s.calls[t].req.wokenFlag != a
  }

  predicate Accepted(step: Step)
    requires step.ClientCall?
  {
    step.accepted && step.req.paramsPtr != NULL && step.req.reply != NULL
  }

  /** The lowest captured slot: the one the interrupt handler's loop is at. */
  function Current(s: Sys): nat
    requires s.isr.On?
  {
    Scan(s.isr.left, |s.slots|, 0)
  }

  /** `tfm_ns_mailbox_client_call` up to and including the send: the parameter checks and a refused
      send leave nothing behind. */
  function CallClient(s: Sys, req: Req, p: Params, accepted: bool): Sys {
    if req.paramsPtr == NULL || req.reply == NULL || !accepted then s
    else
      var msg := Msg(req.callType, p, req.clientId);
      s.(params := s.params[req.paramsPtr := p],
         flags := s.flags[req.wokenFlag := false],
         mq := s.mq + [Item(s.next, req)],
         calls := s.calls[s.next := Call(req, msg, Queued(s.received + |s.mq|))],
         sent := s.sent[s.next := msg],
         next := s.next + 1)
  }

  /** The wait loop sees WOKEN_UP: the call returns success and its stack frame is gone. */
  function ReturnClient(s: Sys, t: Ticket): Sys
    requires t in s.calls
  {
    var a := s.calls[t].req.reply;
    s.(calls := s.calls - {t},
       returned := s.returned[t := if a in s.replies then s.replies[a] else Reply(0, [])])
  }

  /** The runner takes a request and drops it if a pointer in it is null. */
  function ReceiveRequest(s: Sys): (s': Sys)
    requires s.mq != []
    ensures s'.sent == s.sent && s'.served == s.served && s'.empty == s.empty
  {
    var it := s.mq[0];
    var s1 := s.(mq := s.mq[1..], received := s.received + 1);
    if it.req.paramsPtr == NULL || it.req.reply == NULL || it.req.wokenFlag == NULL then s1
    else s1.(runner := Received(it.t, it.req), calls := At(s.calls, it.t, AtRunner))
  }

  function At(calls: map<Ticket, Call>, t: Ticket, w: Where): map<Ticket, Call> {
    if t in calls then calls[t := calls[t].(at := w)] else calls
  }

  /** First locked section of `acquire_empty_slot`: read the mask, or flag the queue full and sleep. */
  function ReadEmpty(s: Sys): (s': Sys)
    requires s.runner.Received?
    ensures s'.sent == s.sent && s'.served == s.served && s'.empty == s.empty
  {
    if |s.empty| == 0 then s.(isFull := true, runner := Sleeping(s.runner.t, s.runner.req))
    else s.(runner := Sees(s.runner.t, s.runner.req, s.empty))
  }

  /** Woken from the sleep on a full queue, the runner reads the mask again. */
  function Rewake(s: Sys): (s': Sys)
    requires s.runner.Sleeping?
    ensures s'.sent == s.sent && s'.served == s.served && s'.empty == s.empty
  {
    s.(isFull := false, runner := Received(s.runner.t, s.runner.req))
  }

  /** The second locked section: the bit is cleared and the slot belongs to the request. */
  function Claim(s: Sys, t: Ticket, req: Req, idx: nat): (s': Sys)
    requires idx < |s.phase|
    ensures s'.sent == s.sent && s'.served == s.served
  {
    s.(empty := s.empty - {idx},
       runner := Holds(t, req, idx),
       phase := s.phase[idx := Filling(t)],
       calls := At(s.calls, t, InSlot(idx)))
  }

  /** Scan of the mask read earlier and the second locked section, which clears the bit. A scan that
      finds nothing makes the caller return MAILBOX_QUEUE_FULL and the request is lost. */
  function Acquire(s: Sys): (s': Sys)
    requires s.runner.Sees?
    ensures s'.sent == s.sent && s'.served == s.served
  {
    var idx := Scan(s.runner.status, |s.slots|, 0);
    if idx == |s.slots| || idx >= |s.phase| then s.(runner := Receiving)
    else Claim(s, s.runner.t, s.runner.req, idx)
  }

  function FillMsg(s: Sys): (s': Sys)
    requires s.runner.Holds?
    ensures s'.sent == s.sent && s'.served == s.served && s'.empty == s.empty
  {
    var Holds(t, req, idx) := s.runner;
    var p := if req.paramsPtr in s.params then s.params[req.paramsPtr] else Params([]);
    s.(slots := Put(s.slots, idx, (sl: Slot) => sl.(msg := Msg(req.callType, p, req.clientId))),
       runner := MsgFilled(t, req, idx))
  }

  function FillNs(s: Sys): (s': Sys)
    requires s.runner.MsgFilled?
    ensures s'.sent == s.sent && s'.served == s.served && s'.empty == s.empty
  {
    var MsgFilled(t, req, idx) := s.runner;
    s.(slots := Put(s.slots, idx, (sl: Slot) => sl.(owner := req.owner, replyPtr := req.reply, wokenPtr := req.wokenFlag)),
       runner := NsFilled(t, req, idx))
  }

  function Put(slots: seq<Slot>, i: nat, f: Slot -> Slot): seq<Slot> {
    if i < |slots| then slots[i := f(slots[i])] else slots
  }

  function Mark(phase: seq<Phase>, i: nat, ph: Phase): seq<Phase> {
    if i < |phase| then phase[i := ph] else phase
  }

  function MakePending(s: Sys): (s': Sys)
    requires s.runner.NsFilled?
    ensures s'.sent == s.sent && s'.served == s.served && s'.empty == s.empty
  {
    s.(pend := s.pend + {s.runner.idx},
       phase := Mark(s.phase, s.runner.idx, Pending(s.runner.t)),
       runner := Receiving)
  }

  /** The interrupt handler reads and clears the whole replied mask; it stops at once if it was zero. */
  function Capture(s: Sys): Sys {
    if s.replied == {} then s
    else
      s.(replied := {},
         isr := On(s.replied, {}, false),
         phase := seq(|s.phase|, i requires 0 <= i < |s.phase| =>
                        if i in s.replied && s.phase[i].Replied? then Captured(s.phase[i].t) else s.phase[i]))
  }

  /** `ns_mailbox_set_reply_isr` on the current slot. */
  function CopyReply(s: Sys): Sys
    requires s.isr.On?
  {
    var i := Current(s);
    if i >= |s.slots| || i >= |s.phase| then s.(isr := s.isr.(copied := true))
    else
      var a := s.slots[i].replyPtr;
      s.(replies := if a == NULL then s.replies else s.replies[a := s.slots[i].reply],
         isr := s.isr.(copied := true),
         phase := if s.phase[i].Captured? then s.phase[i := Copied(s.phase[i].t)] else s.phase)
  }

  /** `set_queue_slot_woken` on the current slot, then the loop moves on. */
  function WakeOwner(s: Sys): Sys
    requires s.isr.On?
  {
    var i := Current(s);
    if i >= |s.slots| || i >= |s.phase| then s.(isr := On({}, s.isr.done, false))
    else
      s.(flags := s.flags[s.slots[i].wokenPtr := true],
         isr := On(s.isr.left - {i}, s.isr.done + {i}, false),
         phase := s.phase[i := Woken],
         calls := if s.phase[i].Copied? then At(s.calls, s.phase[i].t, Done) else s.calls)
  }

  /** `set_queue_slot_all_empty`. */
  function FinishIsr(s: Sys): Sys
    requires s.isr.On?
  {
    s.(empty := s.empty + s.isr.done,
       isr := Off,
       phase := seq(|s.phase|, i requires 0 <= i < |s.phase| => if i in s.isr.done then Empty else s.phase[i]))
  }

  function Take(s: Sys, i: nat): Sys
    requires i < |s.slots|
  {
    s.(pend := s.pend - {i},
       secure := s.secure[i := s.slots[i].msg],
       phase := if i < |s.phase| && s.phase[i].Pending? then s.phase[i := AtSecure(s.phase[i].t)] else s.phase)
  }

  function Answer(s: Sys, i: nat, r: Reply): Sys
    requires i in s.secure && i < |s.slots| && i < |s.phase| && s.phase[i].AtSecure?
  {
    s.(slots := s.slots[i := s.slots[i].(reply := r)],
       served := s.served[s.phase[i].t := Served(s.secure[i], r)],
       phase := s.phase[i := Answered(s.phase[i].t)])
  }

  function Publish(s: Sys, i: nat): Sys
    requires i < |s.phase| && s.phase[i].Answered?
  {
    s.(replied := s.replied + {i},
       secure := s.secure - {i},
       phase := s.phase[i := Replied(s.phase[i].t)])
  }

  predicate IsClientStep(step: Step) {
    step.ClientCall? || step.ClientReturn? || IsReuse(step)
  }

  predicate IsReuse(step: Step) {
    step.ReuseParams? || step.ReuseReply? || step.ReuseFlag?
  }

  predicate IsIsrStep(step: Step) {
    step.IsrCapture? || step.IsrCopy? || step.IsrWake? || step.IsrFinish?
  }

  predicate IsSecureStep(step: Step) {
    step.SecureTake? || step.SecureAnswer? || step.SecurePublish?
  }

  function ApplyClient(s: Sys, step: Step): (s': Sys)
    requires Enabled(s, step) && IsClientStep(step)
    ensures s'.empty == s.empty && s'.served == s.served
    ensures (step.ClientCall? && Accepted(step)) || s'.sent == s.sent
  {
    match step
    case ClientCall(req, p, accepted) => CallClient(s, req, p, accepted)
    case ClientReturn(t) => ReturnClient(s, t)
    case ReuseParams(a, p) => s.(params := s.params[a := p])
    case ReuseReply(a, r) => s.(replies := s.replies[a := r])
    case ReuseFlag(a, f) => s.(flags := s.flags[a := f])
  }

  function ApplyRunner(s: Sys, step: Step): (s': Sys)
    requires Enabled(s, step) && !IsClientStep(step) && !IsIsrStep(step) && !IsSecureStep(step)
    ensures s'.sent == s.sent && s'.served == s.served
    ensures step.RunnerAcquire? || s'.empty == s.empty
  {
    match step
    case RunnerReceive => ReceiveRequest(s)
    case RunnerRead => ReadEmpty(s)
    case RunnerWake => Rewake(s)
    case RunnerAcquire => Acquire(s)
    case RunnerFillMsg => FillMsg(s)
    case RunnerFillNs => FillNs(s)
    case RunnerPend => MakePending(s)
  }

  function ApplyIsr(s: Sys, step: Step): (s': Sys)
    requires Enabled(s, step) && IsIsrStep(step)
    ensures s'.sent == s.sent && s'.served == s.served
    ensures s.empty <= s'.empty
  {
    match step
    case IsrCapture => Capture(s)
    case IsrCopy => CopyReply(s)
    case IsrWake => WakeOwner(s)
    case IsrFinish => FinishIsr(s)
  }

  function ApplySecure(s: Sys, step: Step): (s': Sys)
    requires Enabled(s, step) && IsSecureStep(step)
    ensures s'.sent == s.sent && s'.empty == s.empty
    ensures step.SecureAnswer? || s'.served == s.served
  {
    match step
    case SecureTake(i) => Take(s, i)
    case SecureAnswer(i, r) => Answer(s, i, r)
    case SecurePublish(i) => Publish(s, i)
  }

  /** One step. Only the runner clears bits of the empty mask, only an accepted call counts as submitted,
      and only the secure core answers. */
  function Apply(s: Sys, step: Step): (s': Sys)
    requires Enabled(s, step)
    ensures step.RunnerAcquire? || s.empty <= s'.empty
    ensures (step.ClientCall? && Accepted(step)) || s'.sent == s.sent
    ensures step.SecureAnswer? || s'.served == s.served
  {
    if IsClientStep(step) then ApplyClient(s, step)
    else if IsIsrStep(step) then ApplyIsr(s, step)
    else if IsSecureStep(step) then ApplySecure(s, step)
    else ApplyRunner(s, step)
  }

  // ---- Invariant ----------------------------------------------------------------------------

  predicate HasTicket(ph: Phase) {
    !ph.Empty? && !ph.Woken?
  }

  /** The masks and the locals of runner and interrupt agree with the phase of slot `i`. */
  predicate SlotMasks(s: Sys, i: nat) {
    && i < |s.phase|
    && var ph := s.phase[i];
    && (i in s.empty <==> ph.Empty?)
    && (i in s.pend <==> ph.Pending?)
    && (i in s.replied <==> ph.Replied?)
    && (i in s.secure <==> ph.AtSecure? || ph.Answered?)
    && (i in IsrLeft(s) <==> ph.Captured? || ph.Copied?)
    && (i in IsrDone(s) <==> ph.Woken?)
    && (ph.Copied? <==> s.isr.On? && s.isr.copied && i in s.isr.left && i == Current(s))
    && (ph.Filling? <==> RunnerHolds(s) && s.runner.idx == i)
  }

  function IsrLeft(s: Sys): set<nat> {
    if s.isr.On? then s.isr.left else {}
  }

  function IsrDone(s: Sys): set<nat> {
    if s.isr.On? then s.isr.done else {}
  }

  predicate RunnerHolds(s: Sys) {
    s.runner.Holds? || s.runner.MsgFilled? || s.runner.NsFilled?
  }

  /** No mask names a slot outside the queue. */
  predicate MaskBounds(s: Sys) {
    var all := Below(|s.slots|);
    && s.empty <= all && s.pend <= all && s.replied <= all && s.secure.Keys <= all
    && IsrLeft(s) <= all && IsrDone(s) <= all
    && (s.isr.On? && s.isr.copied ==> s.isr.left != {})
  }

  /** The contents of slot `i` belong to the call it serves. */
  predicate SlotData(s: Sys, i: nat) {
    && i < |s.phase| && i < |s.slots|
    && var ph := s.phase[i];
    HasTicket(ph) ==>
      && ph.t in s.calls
      && s.calls[ph.t].at == InSlot(i)
      && var c := s.calls[ph.t];
      && (ph.Filling? ==> s.runner.MsgFilled? || s.runner.NsFilled? ==> s.slots[i].msg == c.msg)
      && (ph.Filling? ==> s.runner.NsFilled? ==> PointersOf(s.slots[i], c.req))
      && (!ph.Filling? ==> PointersOf(s.slots[i], c.req))
      && (ph.Pending? ==> s.slots[i].msg == c.msg)
      && (ph.AtSecure? ==> i in s.secure && s.secure[i] == c.msg)
      && (ph.Filling? || ph.Pending? || ph.AtSecure? ==> ph.t !in s.served)
      && (ph.Answered? || ph.Replied? || ph.Captured? || ph.Copied? ==>
            ph.t in s.served && s.served[ph.t] == Served(c.msg, s.slots[i].reply))
      && (ph.Copied? ==> c.req.reply in s.replies && s.replies[c.req.reply] == s.slots[i].reply)
  }

  predicate PointersOf(sl: Slot, req: Req) {
    sl.owner == req.owner && sl.replyPtr == req.reply && sl.wokenPtr == req.wokenFlag
  }

  /** A call in progress: its request is in exactly one place, its parameters are intact, and its
      flag is raised only once its reply has been delivered. */
  predicate CallOk(s: Sys, t: Ticket) {
    && t in s.calls
    && var c := s.calls[t];
    && t < s.next && t !in s.returned
    && t in s.sent && s.sent[t] == c.msg
    && c.req.paramsPtr != NULL && c.req.reply != NULL && c.req.wokenFlag != NULL
    && c.req.paramsPtr in s.params
    && c.msg == Msg(c.req.callType, s.params[c.req.paramsPtr], c.req.clientId)
    && c.req.wokenFlag in s.flags
    && (s.flags[c.req.wokenFlag] <==> c.at == Done)
    && match c.at
       case Queued(pos) =>
         t !in s.served && s.received <= pos < s.received + |s.mq| && s.mq[pos - s.received].t == t
       case AtRunner => t !in s.served && (s.runner.Received? || s.runner.Sleeping? || s.runner.Sees?) && s.runner.t == t
       case InSlot(i) => i < |s.phase| && HasTicket(s.phase[i]) && s.phase[i].t == t
       case Done =>
         t in s.served && c.req.reply in s.replies && s.served[t] == Served(c.msg, s.replies[c.req.reply])
  }

  predicate RunnerOk(s: Sys) {
    && (!s.runner.Receiving? ==> s.runner.t in s.calls && s.runner.req == s.calls[s.runner.t].req)
    && (s.runner.Received? || s.runner.Sleeping? || s.runner.Sees? ==> s.calls[s.runner.t].at == AtRunner)
    && (s.runner.Sees? ==> s.runner.status != {} && s.runner.status <= s.empty)
    && (RunnerHolds(s) ==> s.runner.idx < |s.phase| && s.phase[s.runner.idx] == Filling(s.runner.t))
  }

  /** The request at position `k` of the message queue is that of a call waiting there. */
  predicate QueueItem(s: Sys, k: nat) {
    && k < |s.mq|
    && var it := s.mq[k];
    it.t in s.calls && s.calls[it.t].at == Queued(s.received + k) && it.req == s.calls[it.t].req
  }

  /** Calls in progress share neither reply buffers nor flags. */
  predicate Apart(s: Sys, t: Ticket, u: Ticket) {
    t in s.calls && u in s.calls && t != u ==>
      && s.calls[t].req.reply != s.calls[u].req.reply
      && s.calls[t].req.wokenFlag != s.calls[u].req.wokenFlag
  }

  /** A call that has returned holds the reply the secure core computed for what it submitted. */
  predicate ReturnOk(s: Sys, t: Ticket) {
    t in s.returned && t < s.next && t in s.sent && t in s.served && s.served[t] == Served(s.sent[t], s.returned[t])
  }

  /** Counts, locals of the runner, and bounds of the masks. */
  predicate Frame(s: Sys) {
    && 1 <= |s.slots| <= WIDTH
    && |s.phase| == |s.slots|
    && MaskBounds(s)
    && RunnerOk(s)
  }

  /** The message queue and the history of calls. */
  predicate Books(s: Sys) {
    && (forall k: nat | k < |s.mq| :: QueueItem(s, k))
    && (forall t, u | t in s.calls && u in s.calls :: Apart(s, t, u))
    && (forall t | t in s.returned :: ReturnOk(s, t))
    && (forall t: Ticket | t < s.next :: t in s.calls || t in s.returned)
    && (forall t: Ticket | t in s.served :: t < s.next)
  }

  predicate Inv(s: Sys) {
    && Frame(s)
    && (forall i: nat | i < |s.slots| :: SlotMasks(s, i) && SlotData(s, i))
    && (forall t | t in s.calls :: CallOk(s, t))
    && Books(s)
  }

  lemma InitialInv(s: Sys)
    requires Initial(s)
    ensures Inv(s)
  {
    AllSlotsIsBelow(|s.slots|);
  }

  // ---- Every step keeps the invariant ---------------------------------------------------------
  //
  // Each step is checked for one slot and for one call at a time, from the facts about that slot or
  // call, and for the message queue and history once for all; `StepInv` puts the pieces together.

  predicate SlotOk(s: Sys, i: nat) {
    && SlotMasks(s, i)
    && SlotData(s, i)
    && (HasTicket(s.phase[i]) ==> CallOk(s, s.phase[i].t))
  }

  predicate UserOk(s: Sys, u: Ticket) {
    && CallOk(s, u)
    && (s.calls[u].at.InSlot? ==> SlotMasks(s, s.calls[u].at.i) && SlotData(s, s.calls[u].at.i))
  }

  lemma CallClientSlot(s: Sys, req: Req, p: Params, j: nat)
    requires Frame(s) && SlotOk(s, j)
    requires req.paramsPtr != NULL && req.reply != NULL && req.wokenFlag != NULL && Unlent(s, req, p)
    ensures SlotMasks(CallClient(s, req, p, true), j) && SlotData(CallClient(s, req, p, true), j)
  {
  }

  lemma CallClientCall(s: Sys, req: Req, p: Params, u: Ticket)
    requires Frame(s) && ((u in s.calls && UserOk(s, u)) || u == s.next)
    requires req.paramsPtr != NULL && req.reply != NULL && req.wokenFlag != NULL && Unlent(s, req, p)
    requires s.next !in s.returned && s.next !in s.served
    ensures CallOk(CallClient(s, req, p, true), u)
  {
  }

  lemma ReturnClientSlot(s: Sys, t: Ticket, j: nat)
    requires Frame(s) && SlotOk(s, j)
    requires CallOk(s, t) && s.flags[s.calls[t].req.wokenFlag]
    ensures SlotMasks(ReturnClient(s, t), j) && SlotData(ReturnClient(s, t), j)
  {
  }

  lemma ReturnClientCall(s: Sys, t: Ticket, u: Ticket)
    requires Frame(s) && u in s.calls && UserOk(s, u) && u != t
    requires CallOk(s, t) && s.flags[s.calls[t].req.wokenFlag]
    ensures CallOk(ReturnClient(s, t), u)
  {
  }

  lemma ReceiveRequestSlot(s: Sys, j: nat)
    requires Frame(s) && SlotOk(s, j)
    requires s.runner.Receiving? && QueueItem(s, 0) && CallOk(s, s.mq[0].t)
    ensures SlotMasks(ReceiveRequest(s), j) && SlotData(ReceiveRequest(s), j)
  {
  }

  lemma ReceiveRequestCall(s: Sys, u: Ticket)
    requires Frame(s) && u in s.calls && UserOk(s, u)
    requires s.runner.Receiving? && QueueItem(s, 0) && CallOk(s, s.mq[0].t)
    ensures CallOk(ReceiveRequest(s), u)
  {
  }

  lemma ReadEmptySlot(s: Sys, j: nat)
    requires Frame(s) && SlotOk(s, j)
    requires s.runner.Received?
    ensures SlotMasks(ReadEmpty(s), j) && SlotData(ReadEmpty(s), j)
  {
    if |s.empty| == 0 {
    } else {
    }
  }

  lemma ReadEmptyCall(s: Sys, u: Ticket)
    requires Frame(s) && u in s.calls && UserOk(s, u)
    requires s.runner.Received?
    ensures CallOk(ReadEmpty(s), u)
  {
    if |s.empty| == 0 {
    } else {
    }
  }

  lemma RewakeSlot(s: Sys, j: nat)
    requires Frame(s) && SlotOk(s, j)
    requires s.runner.Sleeping?
    ensures SlotMasks(Rewake(s), j) && SlotData(Rewake(s), j)
  {
  }

  lemma RewakeCall(s: Sys, u: Ticket)
    requires Frame(s) && u in s.calls && UserOk(s, u)
    requires s.runner.Sleeping?
    ensures CallOk(Rewake(s), u)
  {
  }

  lemma AcquireSlot(s: Sys, j: nat)
    requires Frame(s) && SlotOk(s, j)
    requires s.runner.Sees? && CallOk(s, s.runner.t)
    ensures SlotMasks(Acquire(s), j) && SlotData(Acquire(s), j)
  {
  }

  lemma AcquireCall(s: Sys, u: Ticket)
    requires Frame(s) && u in s.calls && UserOk(s, u)
    requires s.runner.Sees?
    requires SlotMasks(s, Scan(s.runner.status, |s.slots|, 0))
    ensures CallOk(Acquire(s), u)
  {
  }

  lemma FillMsgSlot(s: Sys, j: nat)
    requires Frame(s) && SlotOk(s, j)
    requires s.runner.Holds? && CallOk(s, s.runner.t)
    ensures SlotMasks(FillMsg(s), j) && SlotData(FillMsg(s), j)
  {
  }

  lemma FillMsgCall(s: Sys, u: Ticket)
    requires Frame(s) && u in s.calls && UserOk(s, u)
    requires s.runner.Holds? && CallOk(s, s.runner.t)
    ensures CallOk(FillMsg(s), u)
  {
  }

  lemma FillNsSlot(s: Sys, j: nat)
    requires Frame(s) && SlotOk(s, j)
    requires s.runner.MsgFilled?
    ensures SlotMasks(FillNs(s), j) && SlotData(FillNs(s), j)
  {
  }

  lemma FillNsCall(s: Sys, u: Ticket)
    requires Frame(s) && u in s.calls && UserOk(s, u)
    requires s.runner.MsgFilled?
    ensures CallOk(FillNs(s), u)
  {
  }

  lemma MakePendingSlot(s: Sys, j: nat)
    requires Frame(s) && SlotOk(s, j)
    requires s.runner.NsFilled?
    ensures SlotMasks(MakePending(s), j) && SlotData(MakePending(s), j)
  {
  }

  lemma MakePendingCall(s: Sys, u: Ticket)
    requires Frame(s) && u in s.calls && UserOk(s, u)
    requires s.runner.NsFilled?
    ensures CallOk(MakePending(s), u)
  {
  }

  lemma CaptureSlot(s: Sys, j: nat)
    requires Frame(s) && SlotOk(s, j)
    requires s.isr.Off?
    ensures SlotMasks(Capture(s), j) && SlotData(Capture(s), j)
  {
    if s.replied == {} {
    } else {
    }
  }

  lemma CaptureCall(s: Sys, u: Ticket)
    requires Frame(s) && u in s.calls && UserOk(s, u)
    requires s.isr.Off?
    ensures CallOk(Capture(s), u)
  {
    if s.replied == {} {
    } else {
    }
  }

  lemma CopyReplySlot(s: Sys, j: nat)
    requires Frame(s) && SlotOk(s, j)
    requires s.isr.On? && s.isr.left != {} && !s.isr.copied && SlotOk(s, Current(s))
    requires HasTicket(s.phase[j]) ==> Apart(s, s.phase[j].t, s.phase[Current(s)].t)
    ensures SlotMasks(CopyReply(s), j) && SlotData(CopyReply(s), j)
  {
  }

  lemma CopyReplyCall(s: Sys, u: Ticket)
    requires Frame(s) && u in s.calls && UserOk(s, u)
    requires s.isr.On? && s.isr.left != {} && !s.isr.copied && SlotOk(s, Current(s))
    requires Apart(s, u, s.phase[Current(s)].t)
    ensures CallOk(CopyReply(s), u)
  {
    var i, s' := Current(s), CopyReply(s);
    assert s.phase[i].Captured? && s.calls[s.phase[i].t].at == InSlot(i);
    assert s'.phase == s.phase[i := Copied(s.phase[i].t)];
    if s.calls[u].at.Done? {
      assert s'.replies == s.replies[s.slots[i].replyPtr := s.slots[i].reply];
    }
  }

  /** The loop of the interrupt handler is at a slot whose reply it has just copied. */
  predicate AtCopied(s: Sys) {
    && Frame(s) && s.isr.On? && s.isr.left != {} && s.isr.copied
    && SlotOk(s, Current(s)) && s.phase[Current(s)].Copied?
  }

  lemma WakeOwnerMasks(s: Sys, j: nat)
    requires AtCopied(s) && SlotMasks(s, j)
    ensures SlotMasks(WakeOwner(s), j)
  {
    var i, s' := Current(s), WakeOwner(s);
    assert s'.phase == s.phase[i := Woken];
    assert s'.isr == On(s.isr.left - {i}, s.isr.done + {i}, false);
  }

  lemma WakeOwnerData(s: Sys, j: nat)
    requires AtCopied(s) && SlotOk(s, j)
    ensures SlotData(WakeOwner(s), j)
  {
    var i, s' := Current(s), WakeOwner(s);
    assert s'.phase == s.phase[i := Woken];
    if j == i {
      assert !HasTicket(s'.phase[j]);
    } else if HasTicket(s.phase[j]) {
      assert s.calls[s.phase[j].t].at == InSlot(j) && s.calls[s.phase[i].t].at == InSlot(i);
      assert s'.calls[s.phase[j].t] == s.calls[s.phase[j].t];
    }
  }

  lemma WakeOwnerSlot(s: Sys, j: nat)
    requires AtCopied(s) && SlotOk(s, j)
    ensures SlotMasks(WakeOwner(s), j) && SlotData(WakeOwner(s), j)
  {
    WakeOwnerMasks(s, j);
    WakeOwnerData(s, j);
  }

  lemma WakeOwnerCall(s: Sys, u: Ticket)
    requires AtCopied(s) && u in s.calls && UserOk(s, u)
    requires Apart(s, u, s.phase[Current(s)].t)
    ensures CallOk(WakeOwner(s), u)
  {
    var i, s' := Current(s), WakeOwner(s);
    var o := s.phase[i].t;
    assert s'.phase == s.phase[i := Woken];
    assert s'.flags == s.flags[s.calls[o].req.wokenFlag := true];
    assert s.calls[o].at == InSlot(i);
    if u == o {
      assert s'.calls[u] == s.calls[u].(at := Done);
    } else {
      assert s'.calls[u] == s.calls[u];
    }
  }

  lemma FinishIsrSlot(s: Sys, j: nat)
    requires Frame(s) && SlotOk(s, j)
    requires s.isr.On? && s.isr.left == {}
    ensures SlotMasks(FinishIsr(s), j) && SlotData(FinishIsr(s), j)
  {
  }

  lemma FinishIsrCall(s: Sys, u: Ticket)
    requires Frame(s) && u in s.calls && UserOk(s, u)
    requires s.isr.On? && s.isr.left == {}
    ensures CallOk(FinishIsr(s), u)
  {
  }

  lemma TakeSlot(s: Sys, i: nat, j: nat)
    requires Frame(s) && SlotOk(s, j)
    requires i in s.pend && SlotOk(s, i)
    ensures SlotMasks(Take(s, i), j) && SlotData(Take(s, i), j)
  {
  }

  lemma TakeCall(s: Sys, i: nat, u: Ticket)
    requires Frame(s) && u in s.calls && UserOk(s, u)
    requires i in s.pend && SlotOk(s, i)
    ensures CallOk(Take(s, i), u)
  {
  }

  lemma AnswerSlot(s: Sys, i: nat, r: Reply, j: nat)
    requires Frame(s) && SlotOk(s, j)
    requires i in s.secure && SlotOk(s, i) && s.phase[i].AtSecure?
    ensures SlotMasks(Answer(s, i, r), j) && SlotData(Answer(s, i, r), j)
  {
  }

  lemma AnswerCall(s: Sys, i: nat, r: Reply, u: Ticket)
    requires Frame(s) && u in s.calls && UserOk(s, u)
    requires i in s.secure && SlotOk(s, i) && s.phase[i].AtSecure?
    ensures CallOk(Answer(s, i, r), u)
  {
  }

  lemma PublishSlot(s: Sys, i: nat, j: nat)
    requires Frame(s) && SlotOk(s, j)
    requires i in s.secure && SlotOk(s, i) && s.phase[i].Answered?
    ensures SlotMasks(Publish(s, i), j) && SlotData(Publish(s, i), j)
  {
  }

  lemma PublishCall(s: Sys, i: nat, u: Ticket)
    requires Frame(s) && u in s.calls && UserOk(s, u)
    requires i in s.secure && SlotOk(s, i) && s.phase[i].Answered?
    ensures CallOk(Publish(s, i), u)
  {
  }

  /** The facts of the invariant about one slot and about one call. */
  lemma SlotFacts(s: Sys, i: nat)
    requires Inv(s) && i < |s.slots|
    ensures SlotOk(s, i)
  {
    assert SlotMasks(s, i) && SlotData(s, i);
  }

  lemma CallFacts(s: Sys, t: Ticket)
    requires Inv(s) && t in s.calls
    ensures UserOk(s, t)
  {
    assert CallOk(s, t);
  }

  lemma RunnerFacts(s: Sys)
    requires Inv(s)
    ensures !s.runner.Receiving? ==> UserOk(s, s.runner.t)
    ensures RunnerHolds(s) ==> SlotOk(s, s.runner.idx)
  {
    if !s.runner.Receiving? {
      CallFacts(s, s.runner.t);
    }
    if RunnerHolds(s) {
      SlotFacts(s, s.runner.idx);
    }
  }

  /** Nothing enters or leaves the message queue, no call starts or returns, and served calls stay
      served as they were. */
  predicate SameBooks(s: Sys, s': Sys) {
    && s'.mq == s.mq && s'.received == s.received
    && s'.returned == s.returned && s'.next == s.next && s'.sent == s.sent
    && s'.calls.Keys == s.calls.Keys
    && (forall t | t in s.calls ::
          && s'.calls[t].req == s.calls[t].req
          && (s.calls[t].at.Queued? ==> s'.calls[t].at == s.calls[t].at))
    && (forall t | t in s.served :: t in s'.served && s'.served[t] == s.served[t])
    && (forall t | t in s'.served :: t < s.next)
  }

  lemma BooksKept(s: Sys, s': Sys)
    requires Books(s) && SameBooks(s, s')
    ensures Books(s')
  {
    forall k: nat | k < |s'.mq|
      ensures QueueItem(s', k)
    {
      assert QueueItem(s, k);
    }
    forall t, u | t in s'.calls && u in s'.calls
      ensures Apart(s', t, u)
    {
      assert Apart(s, t, u);
    }
    forall t | t in s'.returned
      ensures ReturnOk(s', t)
    {
      assert ReturnOk(s, t);
    }
  }

  /** The scan always finds a slot, and the slot is still empty although the mask was read earlier: only
      the runner clears bits of the empty mask. */
  lemma ScanFinds(s: Sys)
    requires Inv(s) && s.runner.Sees?
    ensures var idx := Scan(s.runner.status, |s.slots|, 0);
            idx < |s.slots| && idx in s.empty && SlotOk(s, idx)
  {
    var idx := Scan(s.runner.status, |s.slots|, 0);
    var j :| j in s.runner.status;
    assert j in s.empty && j in Below(|s.slots|);
    SlotFacts(s, idx);
  }

  /** While the interrupt handler has captured slots left, its loop is at one of them. */
  lemma CurrentSlot(s: Sys)
    requires Inv(s) && s.isr.On? && s.isr.left != {}
    ensures Current(s) < |s.slots| && Current(s) in s.isr.left && SlotOk(s, Current(s))
    ensures s.phase[Current(s)].Copied? <==> s.isr.copied
    ensures HasTicket(s.phase[Current(s)])
  {
    var j :| j in s.isr.left;
    assert j in Below(|s.slots|);
    SlotFacts(s, Current(s));
  }

  /** The next ticket has no history yet. */
  lemma NextIsNew(s: Sys)
    requires Inv(s)
    ensures s.next !in s.calls && s.next !in s.returned && s.next !in s.served
  {
    assert s.next in s.calls ==> CallOk(s, s.next);
    assert s.next in s.returned ==> ReturnOk(s, s.next);
  }

  lemma CallClientBooks(s: Sys, req: Req, p: Params)
    requires Inv(s) && Enabled(s, ClientCall(req, p, true)) && req.paramsPtr != NULL && req.reply != NULL
    ensures Books(CallClient(s, req, p, true))
  {
    RunnerFacts(s);
    NextIsNew(s);
    var s' := CallClient(s, req, p, true);
    forall k: nat | k < |s'.mq|
      ensures QueueItem(s', k)
    {
      assert k < |s.mq| ==> QueueItem(s, k);
      if k < |s.mq| { CallFacts(s, s.mq[k].t); }
    }
    forall t, u | t in s'.calls && u in s'.calls
      ensures Apart(s', t, u)
    {
      assert Apart(s, t, u);
    }
    forall t | t in s'.returned
      ensures ReturnOk(s', t)
    {
      assert t in s.returned ==> ReturnOk(s, t);
    }
  }

  lemma CallClientInv(s: Sys, req: Req, p: Params)
    requires Inv(s) && Enabled(s, ClientCall(req, p, true)) && req.paramsPtr != NULL && req.reply != NULL
    ensures Inv(CallClient(s, req, p, true))
  {
    RunnerFacts(s);
    NextIsNew(s);
    var s' := CallClient(s, req, p, true);
    forall j: nat | j < |s'.slots|
      ensures SlotMasks(s', j) && SlotData(s', j)
    {
      SlotFacts(s, j);
      CallClientSlot(s, req, p, j);
    }
    forall u | u in s'.calls
      ensures CallOk(s', u)
    {
      if u in s.calls {
        CallFacts(s, u);
      }
      CallClientCall(s, req, p, u);
    }
    CallClientBooks(s, req, p);
  }

  lemma ReturnClientBooks(s: Sys, t: Ticket)
    requires Inv(s) && Enabled(s, ClientReturn(t))
    ensures Books(ReturnClient(s, t))
  {
    CallFacts(s, t);
    RunnerFacts(s);
    var s' := ReturnClient(s, t);
    forall k: nat | k < |s'.mq|
      ensures QueueItem(s', k)
    {
      assert k < |s.mq| ==> QueueItem(s, k);
      if k < |s.mq| { CallFacts(s, s.mq[k].t); }
    }
    forall t, u | t in s'.calls && u in s'.calls
      ensures Apart(s', t, u)
    {
      assert Apart(s, t, u);
    }
    forall t | t in s'.returned
      ensures ReturnOk(s', t)
    {
      assert t in s.returned ==> ReturnOk(s, t);
    }
  }

  lemma ReturnClientInv(s: Sys, t: Ticket)
    requires Inv(s) && Enabled(s, ClientReturn(t))
    ensures Inv(ReturnClient(s, t))
  {
    CallFacts(s, t);
    RunnerFacts(s);
    var s' := ReturnClient(s, t);
    forall j: nat | j < |s'.slots|
      ensures SlotMasks(s', j) && SlotData(s', j)
    {
      SlotFacts(s, j);
      ReturnClientSlot(s, t, j);
    }
    forall u | u in s'.calls
      ensures CallOk(s', u)
    {
      CallFacts(s, u);
      ReturnClientCall(s, t, u);
    }
    ReturnClientBooks(s, t);
  }

  lemma ReceiveRequestBooks(s: Sys)
    requires Inv(s) && Enabled(s, RunnerReceive)
    ensures Books(ReceiveRequest(s))
  {
    assert QueueItem(s, 0);
    CallFacts(s, s.mq[0].t);
    var s' := ReceiveRequest(s);
    forall k: nat | k < |s'.mq|
      ensures QueueItem(s', k)
    {
      assert QueueItem(s, k + 1);
      CallFacts(s, s.mq[k + 1].t);
    }
    forall t, u | t in s'.calls && u in s'.calls
      ensures Apart(s', t, u)
    {
      assert Apart(s, t, u);
    }
    forall t | t in s'.returned
      ensures ReturnOk(s', t)
    {
      assert t in s.returned ==> ReturnOk(s, t);
    }
  }

  lemma ReceiveRequestFrame(s: Sys)
    requires Inv(s) && Enabled(s, RunnerReceive)
    ensures Frame(ReceiveRequest(s))
  {
    assert QueueItem(s, 0);
    CallFacts(s, s.mq[0].t);
  }

  lemma ReceiveRequestInv(s: Sys)
    requires Inv(s) && Enabled(s, RunnerReceive)
    ensures Inv(ReceiveRequest(s))
  {
    assert QueueItem(s, 0);
    CallFacts(s, s.mq[0].t);
    var s' := ReceiveRequest(s);
    forall j: nat | j < |s'.slots|
      ensures SlotMasks(s', j) && SlotData(s', j)
    {
      SlotFacts(s, j);
      ReceiveRequestSlot(s, j);
    }
    forall u | u in s'.calls
      ensures CallOk(s', u)
    {
      CallFacts(s, u);
      ReceiveRequestCall(s, u);
    }
    ReceiveRequestFrame(s);
    ReceiveRequestBooks(s);
  }

  lemma ReadEmptyInv(s: Sys)
    requires Inv(s) && Enabled(s, RunnerRead)
    ensures Inv(ReadEmpty(s))
  {
    if |s.empty| == 0 {
    } else {
    }
    var s' := ReadEmpty(s);
    forall j: nat | j < |s'.slots|
      ensures SlotMasks(s', j) && SlotData(s', j)
    {
      SlotFacts(s, j);
      ReadEmptySlot(s, j);
    }
    forall u | u in s'.calls
      ensures CallOk(s', u)
    {
      CallFacts(s, u);
      ReadEmptyCall(s, u);
    }
    BooksKept(s, s');
  }

  lemma RewakeInv(s: Sys)
    requires Inv(s) && Enabled(s, RunnerWake)
    ensures Inv(Rewake(s))
  {
    var s' := Rewake(s);
    forall j: nat | j < |s'.slots|
      ensures SlotMasks(s', j) && SlotData(s', j)
    {
      SlotFacts(s, j);
      RewakeSlot(s, j);
    }
    forall u | u in s'.calls
      ensures CallOk(s', u)
    {
      CallFacts(s, u);
      RewakeCall(s, u);
    }
    BooksKept(s, s');
  }

  lemma AcquireFrame(s: Sys)
    requires Inv(s) && Enabled(s, RunnerAcquire)
    ensures Frame(Acquire(s)) && SameBooks(s, Acquire(s))
  {
    ScanFinds(s);
    RunnerFacts(s);
  }

  lemma AcquireInv(s: Sys)
    requires Inv(s) && Enabled(s, RunnerAcquire)
    ensures Inv(Acquire(s))
  {
    ScanFinds(s);
    RunnerFacts(s);
    var s' := Acquire(s);
    forall j: nat | j < |s'.slots|
      ensures SlotMasks(s', j) && SlotData(s', j)
    {
      SlotFacts(s, j);
      AcquireSlot(s, j);
    }
    forall u | u in s'.calls
      ensures CallOk(s', u)
    {
      CallFacts(s, u);
      AcquireCall(s, u);
    }
    AcquireFrame(s);
    BooksKept(s, s');
  }

  lemma FillMsgFrame(s: Sys)
    requires Inv(s) && Enabled(s, RunnerFillMsg)
    ensures Frame(FillMsg(s)) && SameBooks(s, FillMsg(s))
  {
    RunnerFacts(s);
  }

  lemma FillMsgInv(s: Sys)
    requires Inv(s) && Enabled(s, RunnerFillMsg)
    ensures Inv(FillMsg(s))
  {
    RunnerFacts(s);
    var s' := FillMsg(s);
    forall j: nat | j < |s'.slots|
      ensures SlotMasks(s', j) && SlotData(s', j)
    {
      SlotFacts(s, j);
      FillMsgSlot(s, j);
    }
    forall u | u in s'.calls
      ensures CallOk(s', u)
    {
      CallFacts(s, u);
      FillMsgCall(s, u);
    }
    FillMsgFrame(s);
    BooksKept(s, s');
  }

  lemma FillNsFrame(s: Sys)
    requires Inv(s) && Enabled(s, RunnerFillNs)
    ensures Frame(FillNs(s)) && SameBooks(s, FillNs(s))
  {
    RunnerFacts(s);
  }

  lemma FillNsInv(s: Sys)
    requires Inv(s) && Enabled(s, RunnerFillNs)
    ensures Inv(FillNs(s))
  {
    var s' := FillNs(s);
    forall j: nat | j < |s'.slots|
      ensures SlotMasks(s', j) && SlotData(s', j)
    {
      SlotFacts(s, j);
      FillNsSlot(s, j);
    }
    forall u | u in s'.calls
      ensures CallOk(s', u)
    {
      CallFacts(s, u);
      FillNsCall(s, u);
    }
    FillNsFrame(s);
    BooksKept(s, s');
  }

  lemma MakePendingFrame(s: Sys)
    requires Inv(s) && Enabled(s, RunnerPend)
    ensures Frame(MakePending(s)) && SameBooks(s, MakePending(s))
  {
    RunnerFacts(s);
  }

  lemma MakePendingInv(s: Sys)
    requires Inv(s) && Enabled(s, RunnerPend)
    ensures Inv(MakePending(s))
  {
    var s' := MakePending(s);
    forall j: nat | j < |s'.slots|
      ensures SlotMasks(s', j) && SlotData(s', j)
    {
      SlotFacts(s, j);
      MakePendingSlot(s, j);
    }
    forall u | u in s'.calls
      ensures CallOk(s', u)
    {
      CallFacts(s, u);
      MakePendingCall(s, u);
    }
    MakePendingFrame(s);
    BooksKept(s, s');
  }

  lemma CaptureInv(s: Sys)
    requires Inv(s) && Enabled(s, IsrCapture)
    ensures Inv(Capture(s))
  {
    if s.replied == {} {
      return;
    }
    RunnerFacts(s);
    var s' := Capture(s);
    forall j: nat | j < |s'.slots|
      ensures SlotMasks(s', j) && SlotData(s', j)
    {
      SlotFacts(s, j);
      CaptureSlot(s, j);
    }
    forall u | u in s'.calls
      ensures CallOk(s', u)
    {
      CallFacts(s, u);
      CaptureCall(s, u);
    }
    BooksKept(s, s');
  }

  lemma CopyReplyFrame(s: Sys)
    requires Inv(s) && Enabled(s, IsrCopy)
    ensures Frame(CopyReply(s)) && SameBooks(s, CopyReply(s))
  {
    CurrentSlot(s);
    RunnerFacts(s);
  }

  lemma CopyReplyInv(s: Sys)
    requires Inv(s) && Enabled(s, IsrCopy)
    ensures Inv(CopyReply(s))
  {
    CurrentSlot(s);
    var s' := CopyReply(s);
    forall j: nat | j < |s'.slots|
      ensures SlotMasks(s', j) && SlotData(s', j)
    {
      SlotFacts(s, j);
      if HasTicket(s.phase[j]) {
        assert Apart(s, s.phase[j].t, s.phase[Current(s)].t);
      }
      CopyReplySlot(s, j);
    }
    forall u | u in s'.calls
      ensures CallOk(s', u)
    {
      CallFacts(s, u);
      assert Apart(s, u, s.phase[Current(s)].t);
      CopyReplyCall(s, u);
    }
    CopyReplyFrame(s);
    BooksKept(s, s');
  }

  lemma WakeOwnerFrame(s: Sys)
    requires Inv(s) && Enabled(s, IsrWake)
    ensures Frame(WakeOwner(s)) && SameBooks(s, WakeOwner(s))
  {
    CurrentSlot(s);
    RunnerFacts(s);
  }

  lemma WakeOwnerInv(s: Sys)
    requires Inv(s) && Enabled(s, IsrWake)
    ensures Inv(WakeOwner(s))
  {
    CurrentSlot(s);
    var s' := WakeOwner(s);
    forall j: nat | j < |s'.slots|
      ensures SlotMasks(s', j) && SlotData(s', j)
    {
      SlotFacts(s, j);
      WakeOwnerSlot(s, j);
    }
    forall u | u in s'.calls
      ensures CallOk(s', u)
    {
      CallFacts(s, u);
      assert Apart(s, u, s.phase[Current(s)].t);
      WakeOwnerCall(s, u);
    }
    WakeOwnerFrame(s);
    BooksKept(s, s');
  }

  lemma FinishIsrFrame(s: Sys)
    requires Inv(s) && Enabled(s, IsrFinish)
    ensures Frame(FinishIsr(s)) && SameBooks(s, FinishIsr(s))
  {
    RunnerFacts(s);
  }

  lemma FinishIsrInv(s: Sys)
    requires Inv(s) && Enabled(s, IsrFinish)
    ensures Inv(FinishIsr(s))
  {
    var s' := FinishIsr(s);
    forall j: nat | j < |s'.slots|
      ensures SlotMasks(s', j) && SlotData(s', j)
    {
      SlotFacts(s, j);
      FinishIsrSlot(s, j);
    }
    forall u | u in s'.calls
      ensures CallOk(s', u)
    {
      CallFacts(s, u);
      FinishIsrCall(s, u);
    }
    FinishIsrFrame(s);
    BooksKept(s, s');
  }

  lemma TakeFrame(s: Sys, i: nat)
    requires Inv(s) && Enabled(s, SecureTake(i))
    ensures Frame(Take(s, i)) && SameBooks(s, Take(s, i))
  {
    SlotFacts(s, i);
    RunnerFacts(s);
  }

  lemma TakeInv(s: Sys, i: nat)
    requires Inv(s) && Enabled(s, SecureTake(i))
    ensures Inv(Take(s, i))
  {
    SlotFacts(s, i);
    var s' := Take(s, i);
    forall j: nat | j < |s'.slots|
      ensures SlotMasks(s', j) && SlotData(s', j)
    {
      SlotFacts(s, j);
      TakeSlot(s, i, j);
    }
    forall u | u in s'.calls
      ensures CallOk(s', u)
    {
      CallFacts(s, u);
      TakeCall(s, i, u);
    }
    TakeFrame(s, i);
    BooksKept(s, s');
  }

  lemma AnswerFrame(s: Sys, i: nat, r: Reply)
    requires Inv(s) && Enabled(s, SecureAnswer(i, r))
    ensures Frame(Answer(s, i, r)) && SameBooks(s, Answer(s, i, r))
  {
    SlotFacts(s, i);
    RunnerFacts(s);
  }

  lemma AnswerInv(s: Sys, i: nat, r: Reply)
    requires Inv(s) && Enabled(s, SecureAnswer(i, r))
    ensures Inv(Answer(s, i, r))
  {
    SlotFacts(s, i);
    var s' := Answer(s, i, r);
    forall j: nat | j < |s'.slots|
      ensures SlotMasks(s', j) && SlotData(s', j)
    {
      SlotFacts(s, j);
      AnswerSlot(s, i, r, j);
    }
    forall u | u in s'.calls
      ensures CallOk(s', u)
    {
      CallFacts(s, u);
      AnswerCall(s, i, r, u);
    }
    AnswerFrame(s, i, r);
    BooksKept(s, s');
  }

  lemma PublishFrame(s: Sys, i: nat)
    requires Inv(s) && Enabled(s, SecurePublish(i))
    ensures Frame(Publish(s, i)) && SameBooks(s, Publish(s, i))
  {
    SlotFacts(s, i);
    RunnerFacts(s);
  }

  lemma PublishInv(s: Sys, i: nat)
    requires Inv(s) && Enabled(s, SecurePublish(i))
    ensures Inv(Publish(s, i))
  {
    SlotFacts(s, i);
    var s' := Publish(s, i);
    forall j: nat | j < |s'.slots|
      ensures SlotMasks(s', j) && SlotData(s', j)
    {
      SlotFacts(s, j);
      PublishSlot(s, i, j);
    }
    forall u | u in s'.calls
      ensures CallOk(s', u)
    {
      CallFacts(s, u);
      PublishCall(s, i, u);
    }
    PublishFrame(s, i);
    BooksKept(s, s');
  }

  lemma ReuseSlot(s: Sys, step: Step, j: nat)
    requires Frame(s) && SlotOk(s, j)
    requires IsReuse(step) && Enabled(s, step)
    ensures SlotMasks(ApplyClient(s, step), j) && SlotData(ApplyClient(s, step), j)
  {
    match step
    case ReuseParams(_, _) =>
    case ReuseReply(_, _) =>
    case ReuseFlag(_, _) =>
  }

  lemma ReuseCall(s: Sys, step: Step, u: Ticket)
    requires Frame(s) && UserOk(s, u)
    requires IsReuse(step) && Enabled(s, step)
    ensures CallOk(ApplyClient(s, step), u)
  {
  }

  lemma ReuseFrame(s: Sys, step: Step)
    requires Frame(s) && Books(s) && IsReuse(step) && Enabled(s, step)
    ensures Frame(ApplyClient(s, step)) && SameBooks(s, ApplyClient(s, step))
    ensures |ApplyClient(s, step).slots| == |s.slots| && ApplyClient(s, step).calls == s.calls
  {
    match step
    case ReuseParams(_, _) =>
    case ReuseReply(_, _) =>
    case ReuseFlag(_, _) =>
  }

  /** Memory that no call has lent out may change without effect on the mailbox. */
  lemma ReuseInv(s: Sys, step: Step)
    requires Inv(s) && Enabled(s, step) && IsReuse(step)
    ensures Inv(ApplyClient(s, step))
  {
    ReuseFrame(s, step);
    var s' := ApplyClient(s, step);
    forall j: nat | j < |s'.slots|
      ensures SlotMasks(s', j) && SlotData(s', j)
    {
      SlotFacts(s, j);
      ReuseSlot(s, step, j);
    }
    forall u | u in s'.calls
      ensures CallOk(s', u)
    {
      CallFacts(s, u);
      ReuseCall(s, step, u);
    }
    BooksKept(s, s');
  }

  lemma ClientStepInv(s: Sys, step: Step)
    requires Inv(s) && Enabled(s, step) && IsClientStep(step)
    ensures Inv(ApplyClient(s, step))
  {
    match step
    case ClientCall(req, p, accepted) =>
      if Accepted(step) {
        CallClientInv(s, req, p);
      }
    case ClientReturn(t) => ReturnClientInv(s, t);
    case ReuseParams(_, _) => ReuseInv(s, step);
    case ReuseReply(_, _) => ReuseInv(s, step);
    case ReuseFlag(_, _) => ReuseInv(s, step);
  }

  lemma RunnerStepInv(s: Sys, step: Step)
    requires Inv(s) && Enabled(s, step) && !IsClientStep(step) && !IsIsrStep(step) && !IsSecureStep(step)
    ensures Inv(ApplyRunner(s, step))
  {
    match step
    case RunnerReceive => ReceiveRequestInv(s);
    case RunnerRead => ReadEmptyInv(s);
    case RunnerWake => RewakeInv(s);
    case RunnerAcquire => AcquireInv(s);
    case RunnerFillMsg => FillMsgInv(s);
    case RunnerFillNs => FillNsInv(s);
    case RunnerPend => MakePendingInv(s);
  }

  lemma IsrStepInv(s: Sys, step: Step)
    requires Inv(s) && Enabled(s, step) && IsIsrStep(step)
    ensures Inv(ApplyIsr(s, step))
  {
    match step
    case IsrCapture => CaptureInv(s);
    case IsrCopy => CopyReplyInv(s);
    case IsrWake => WakeOwnerInv(s);
    case IsrFinish => FinishIsrInv(s);
  }

  lemma SecureStepInv(s: Sys, step: Step)
    requires Inv(s) && Enabled(s, step) && IsSecureStep(step)
    ensures Inv(ApplySecure(s, step))
  {
    match step
    case SecureTake(i) => TakeInv(s, i);
    case SecureAnswer(i, r) => AnswerInv(s, i, r);
    case SecurePublish(i) => PublishInv(s, i);
  }

  /** Every step from a good state leads to a good state. */
  lemma StepInv(s: Sys, step: Step)
    requires Inv(s) && Enabled(s, step)
    ensures Inv(Apply(s, step))
  {
    if IsClientStep(step) {
      ClientStepInv(s, step);
    } else if IsIsrStep(step) {
      IsrStepInv(s, step);
    } else if IsSecureStep(step) {
      SecureStepInv(s, step);
    } else {
      RunnerStepInv(s, step);
    }
  }
}
