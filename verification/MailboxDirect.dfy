/** The mailbox without a dedicated thread (tfm_ns_mailbox.c) as a labelled transition system.

    Any number of client tasks claim slots, fill them, sleep until their slot is marked woken and then
    collect the reply and release the slot themselves. Every spin-locked section, every critical section
    and every other access to shared data is one step. Both ways of noticing a reply are steps: the woken
    flag set by the interrupt handler (with an operating system) and the replied bit polled by the client
    (bare metal). The lock around a whole call is not relied on. */
module MailboxDirect {
  import opened SlotMask
  import opened MailboxTypes

  datatype Slot = Slot(msg: Msg, reply: Reply, owner: Task, isWoken: bool)

  /** Program counter of a client call. */
  datatype Pc =
    | Holds(i: nat)
    | MsgFilled(i: nat)
    | OwnerSet(i: nat)
    | Waiting(i: nat)
    | Collecting(i: nat)
    | Collected(i: nat, reply: Reply)

  datatype Call = Call(task: Task, msg: Msg, pc: Pc)

  datatype Isr = Off | On(left: set<nat>)

  /** The phase a slot is in, with the call it serves (history). */
  datatype Phase =
    | Empty
    | Filling(t: Ticket)
    | Pending(t: Ticket)
    | AtSecure(t: Ticket)
    | Answered(t: Ticket)
    | Replied(t: Ticket)
    | Captured(t: Ticket)
    | Woken(t: Ticket)
    | Collect(t: Ticket)

  datatype Sys = Sys(
    slots: seq<Slot>,
    empty: set<nat>,
    pend: set<nat>,
    replied: set<nat>,
    isr: Isr,
    secure: map<nat, Msg>,
    calls: map<Ticket, Call>,
    phase: seq<Phase>,             // history from here on
    next: Ticket,
    sent: map<Ticket, Msg>,
    served: map<Ticket, Served>,
    returned: map<Ticket, Reply>)

  predicate Initial(s: Sys) {
    && 1 <= |s.slots| <= WIDTH
    && (forall i | 0 <= i < |s.slots| :: !s.slots[i].isWoken)
    && s.phase == seq(|s.slots|, _ => Empty)
    && s.empty == Slots(AllSlots(|s.slots|))
    && s.pend == {} && s.replied == {} && s.isr == Off && s.secure == map[]
    && s.calls == map[] && s.next == 0 && s.sent == map[] && s.served == map[] && s.returned == map[]
  }

  // ---- Steps --------------------------------------------------------------------------------

  datatype Step =
    | ClientAcquire(task: Task, msg: Msg)
    | ClientFillMsg(t: Ticket)
    | ClientSetOwner(t: Ticket)
    | ClientPend(t: Ticket)
    | ClientSeeWoken(t: Ticket)
    | ClientSeeReplied(t: Ticket)
    | ClientCollect(t: Ticket)
    | ClientRelease(t: Ticket)
    | IsrCapture
    | IsrWake
    | SecureTake(i: nat)
    | SecureAnswer(i: nat, r: Reply)
    | SecurePublish(i: nat)

  predicate AtPc(s: Sys, t: Ticket) {
    t in s.calls && s.calls[t].pc.i < |s.slots| && s.calls[t].pc.i < |s.phase|
  }

  predicate Enabled(s: Sys, step: Step) {
    match step
    case ClientAcquire(_, _) => |s.phase| == |s.slots|
    case ClientFillMsg(t) => AtPc(s, t) && s.calls[t].pc.Holds?
    case ClientSetOwner(t) => AtPc(s, t) && s.calls[t].pc.MsgFilled?
    case ClientPend(t) => AtPc(s, t) && s.calls[t].pc.OwnerSet?
    case ClientSeeWoken(t) => AtPc(s, t) && s.calls[t].pc.Waiting? && s.slots[s.calls[t].pc.i].isWoken
    case ClientSeeReplied(t) => AtPc(s, t) && s.calls[t].pc.Waiting? && s.calls[t].pc.i in s.replied
    case ClientCollect(t) => AtPc(s, t) && s.calls[t].pc.Collecting?
    case ClientRelease(t) => AtPc(s, t) && s.calls[t].pc.Collected?
    case IsrCapture => s.isr.Off?
    case IsrWake => s.isr.On? && Scan(s.isr.left, |s.slots|, 0) < |s.phase| == |s.slots|
    // the secure core takes pending slots only and answers each slot it took once
    case SecureTake(i) => i in s.pend && i < |s.slots| == |s.phase|
    case SecureAnswer(i, _) => i in s.secure && i < |s.slots| == |s.phase| && s.phase[i].AtSecure?
    case SecurePublish(i) => i in s.secure && i < |s.slots| == |s.phase| && s.phase[i].Answered?
  }

  function Move(s: Sys, t: Ticket, pc: Pc): map<Ticket, Call>
    requires t in s.calls
  {
    s.calls[t := s.calls[t].(pc := pc)]
  }

  /** `acquire_empty_slot`: one locked section claims the lowest empty slot; with none left the call
      returns MAILBOX_QUEUE_FULL and nothing changes. */
  function Acquire(s: Sys, task: Task, msg: Msg): (s': Sys)
    requires |s.phase| == |s.slots|
  {
    var idx := Scan(s.empty, |s.slots|, 0);
    if idx == |s.slots| then s
    else
      s.(empty := s.empty - {idx},
         phase := s.phase[idx := Filling(s.next)],
         calls := s.calls[s.next := Call(task, msg, Holds(idx))],
         sent := s.sent[s.next := msg],
         next := s.next + 1)
  }

  function FillMsg(s: Sys, t: Ticket): (s': Sys)
    requires AtPc(s, t)
  {
    var i := s.calls[t].pc.i;
    s.(slots := s.slots[i := s.slots[i].(msg := s.calls[t].msg)], calls := Move(s, t, MsgFilled(i)))
  }

  function SetOwner(s: Sys, t: Ticket): (s': Sys)
    requires AtPc(s, t)
  {
    var i := s.calls[t].pc.i;
    s.(slots := s.slots[i := s.slots[i].(owner := s.calls[t].task)], calls := Move(s, t, OwnerSet(i)))
  }

  function MakePending(s: Sys, t: Ticket): (s': Sys)
    requires AtPc(s, t)
  {
    var i := s.calls[t].pc.i;
    s.(pend := s.pend + {i}, calls := Move(s, t, Waiting(i)), phase := s.phase[i := Pending(t)])
  }

  /** `mailbox_wait_reply_signal` with an operating system. */
  function SeeWoken(s: Sys, t: Ticket): (s': Sys)
    requires AtPc(s, t)
  {
    var i := s.calls[t].pc.i;
    s.(slots := s.slots[i := s.slots[i].(isWoken := false)],
       calls := Move(s, t, Collecting(i)),
       phase := s.phase[i := Collect(t)])
  }

  /** `mailbox_wait_reply_signal` on bare metal. */
  function SeeReplied(s: Sys, t: Ticket): (s': Sys)
    requires AtPc(s, t)
  {
    var i := s.calls[t].pc.i;
    s.(replied := s.replied - {i}, calls := Move(s, t, Collecting(i)), phase := s.phase[i := Collect(t)])
  }

  /** First part of `mailbox_rx_client_reply`: copy the reply and clear the owner. */
  function CollectReply(s: Sys, t: Ticket): (s': Sys)
    requires AtPc(s, t)
  {
    var i := s.calls[t].pc.i;
    s.(slots := s.slots[i := s.slots[i].(owner := 0)], calls := Move(s, t, Collected(i, s.slots[i].reply)))
  }

  /** Locked part of `mailbox_rx_client_reply`: the slot becomes empty and the call returns. */
  function Release(s: Sys, t: Ticket): (s': Sys)
    requires AtPc(s, t) && s.calls[t].pc.Collected?
  {
    var i := s.calls[t].pc.i;
    s.(slots := s.slots[i := s.slots[i].(isWoken := false)],
       empty := s.empty + {i},
       calls := s.calls - {t},
       phase := s.phase[i := Empty],
       returned := s.returned[t := s.calls[t].pc.reply])
  }

  function Capture(s: Sys): (s': Sys) {
    if s.replied == {} then s
    else
      s.(replied := {},
         isr := On(s.replied),
         phase := seq(|s.phase|, i requires 0 <= i < |s.phase| =>
                        if i in s.replied && s.phase[i].Replied? then Captured(s.phase[i].t) else s.phase[i]))
  }

  /** The interrupt handler marks the lowest captured slot woken. */
  function WakeSlot(s: Sys): (s': Sys)
    requires s.isr.On? && Scan(s.isr.left, |s.slots|, 0) < |s.phase| == |s.slots|
  {
    var i := Scan(s.isr.left, |s.slots|, 0);
    var left := s.isr.left - {i};
    s.(slots := s.slots[i := s.slots[i].(isWoken := true)],
       isr := if left == {} then Off else On(left),
       phase := if s.phase[i].Captured? then s.phase[i := Woken(s.phase[i].t)] else s.phase)
  }

  function Take(s: Sys, i: nat): (s': Sys)
    requires i < |s.slots| == |s.phase|
  {
    s.(pend := s.pend - {i},
       secure := s.secure[i := s.slots[i].msg],
       phase := if s.phase[i].Pending? then s.phase[i := AtSecure(s.phase[i].t)] else s.phase)
  }

  function Answer(s: Sys, i: nat, r: Reply): (s': Sys)
    requires i in s.secure && i < |s.slots| == |s.phase| && s.phase[i].AtSecure?
  {
    s.(slots := s.slots[i := s.slots[i].(reply := r)],
       served := s.served[s.phase[i].t := Served(s.secure[i], r)],
       phase := s.phase[i := Answered(s.phase[i].t)])
  }

  function Publish(s: Sys, i: nat): (s': Sys)
    requires i < |s.phase| && s.phase[i].Answered?
  {
    s.(replied := s.replied + {i}, secure := s.secure - {i}, phase := s.phase[i := Replied(s.phase[i].t)])
  }

  predicate IsClientStep(step: Step) {
    !IsOtherStep(step)
  }

  predicate IsOtherStep(step: Step) {
    step.IsrCapture? || step.IsrWake? || step.SecureTake? || step.SecureAnswer? || step.SecurePublish?
  }

  function ApplyClient(s: Sys, step: Step): (s': Sys)
    requires Enabled(s, step) && IsClientStep(step)
  {
    match step
    case ClientAcquire(task, msg) => Acquire(s, task, msg)
    case ClientFillMsg(t) => FillMsg(s, t)
    case ClientSetOwner(t) => SetOwner(s, t)
    case ClientPend(t) => MakePending(s, t)
    case ClientSeeWoken(t) => SeeWoken(s, t)
    case ClientSeeReplied(t) => SeeReplied(s, t)
    case ClientCollect(t) => CollectReply(s, t)
    case ClientRelease(t) => Release(s, t)
  }

  function ApplyOther(s: Sys, step: Step): (s': Sys)
    requires Enabled(s, step) && IsOtherStep(step)
  {
    match step
    case IsrCapture => Capture(s)
    case IsrWake => WakeSlot(s)
    case SecureTake(i) => Take(s, i)
    case SecureAnswer(i, r) => Answer(s, i, r)
    case SecurePublish(i) => Publish(s, i)
  }

  function Apply(s: Sys, step: Step): (s': Sys)
    requires Enabled(s, step)
  {
    if IsOtherStep(step) then ApplyOther(s, step) else ApplyClient(s, step)
  }

  // ---- Invariant ----------------------------------------------------------------------------

  function IsrLeft(s: Sys): set<nat> {
    if s.isr.On? then s.isr.left else {}
  }

  predicate Frame(s: Sys) {
    && 1 <= |s.slots| <= WIDTH
    && |s.phase| == |s.slots|
    && var all := Below(|s.slots|);
    && s.empty <= all && s.pend <= all && s.replied <= all && s.secure.Keys <= all && IsrLeft(s) <= all
    && (s.isr.On? ==> s.isr.left != {})
  }

  /** The masks and the woken flag agree with the phase of slot `i`. */
  predicate SlotMasks(s: Sys, i: nat) {
    && i < |s.phase| && i < |s.slots|
    && var ph := s.phase[i];
    && (i in s.empty <==> ph.Empty?)
    && (i in s.pend <==> ph.Pending?)
    && (i in s.replied <==> ph.Replied?)
    && (i in s.secure <==> ph.AtSecure? || ph.Answered?)
    && (i in IsrLeft(s) <==> ph.Captured?)
    && (s.slots[i].isWoken <==> ph.Woken?)
  }

  predicate Unanswered(ph: Phase) {
    ph.Filling? || ph.Pending? || ph.AtSecure?
  }

  /** The contents of slot `i` belong to the one call that holds it, and the call is at the point of its
      program that the phase says. */
  predicate SlotData(s: Sys, i: nat) {
    && i < |s.phase| && i < |s.slots|
    && var ph := s.phase[i];
    !ph.Empty? ==>
      && ph.t in s.calls && s.calls[ph.t].pc.i == i
      && var c := s.calls[ph.t];
      && (ph.Filling? <==> c.pc.Holds? || c.pc.MsgFilled? || c.pc.OwnerSet?)
      && (ph.Collect? <==> c.pc.Collecting? || c.pc.Collected?)
      && (ph.Filling? && (c.pc.MsgFilled? || c.pc.OwnerSet?) ==> s.slots[i].msg == c.msg)
      && (ph.Pending? ==> s.slots[i].msg == c.msg)
      && (ph.AtSecure? ==> i in s.secure && s.secure[i] == c.msg)
      && (Unanswered(ph) ==> ph.t !in s.served)
      && (!Unanswered(ph) ==> ph.t in s.served && s.served[ph.t] == Served(c.msg, s.slots[i].reply))
      && (c.pc.Collected? ==> c.pc.reply == s.slots[i].reply)
      && (c.pc.OwnerSet? || c.pc.Waiting? || c.pc.Collecting? ==> s.slots[i].owner == c.task)
  }

  predicate CallOk(s: Sys, t: Ticket) {
    && t in s.calls
    && var c := s.calls[t];
    && t < s.next && t !in s.returned
    && t in s.sent && s.sent[t] == c.msg
    && c.pc.i < |s.phase| && !s.phase[c.pc.i].Empty? && s.phase[c.pc.i].t == t
  }

  predicate ReturnOk(s: Sys, t: Ticket) {
    t in s.returned && t < s.next && t in s.sent && t in s.served && s.served[t] == Served(s.sent[t], s.returned[t])
  }

  predicate Books(s: Sys) {
    && (forall t | t in s.returned :: ReturnOk(s, t))
    && (forall t: Ticket | t < s.next :: t in s.calls || t in s.returned)
    && (forall t: Ticket | t in s.served :: t < s.next)
  }

  predicate Inv(s: Sys) {
    && Frame(s)
    && (forall i: nat | i < |s.slots| :: SlotMasks(s, i) && SlotData(s, i))
    && (forall t | t in s.calls :: CallOk(s, t))
    && Books(s)
  }

  lemma InitialInv(s: Sys)
    requires Initial(s)
    ensures Inv(s)
  {
    AllSlotsIsBelow(|s.slots|);
  }

  // ---- Every step keeps the invariant ---------------------------------------------------------

  predicate SlotOk(s: Sys, i: nat) {
    SlotMasks(s, i) && SlotData(s, i) && (!s.phase[i].Empty? ==> CallOk(s, s.phase[i].t))
  }

  /** A call together with the slot it holds. */
  predicate UserOk(s: Sys, u: Ticket) {
    CallOk(s, u) && SlotMasks(s, s.calls[u].pc.i) && SlotData(s, s.calls[u].pc.i)
  }

  lemma SlotFacts(s: Sys, i: nat)
    requires Inv(s) && i < |s.slots|
    ensures SlotOk(s, i)
  {
    assert SlotMasks(s, i) && SlotData(s, i);
  }

  lemma CallFacts(s: Sys, t: Ticket)
    requires Inv(s) && t in s.calls
    ensures UserOk(s, t)
  {
    assert CallOk(s, t);
  }

  /** The next ticket has no history yet. */
  lemma NextIsNew(s: Sys)
    requires Inv(s)
    ensures s.next !in s.calls && s.next !in s.returned && s.next !in s.served
  {
    assert s.next in s.calls ==> CallOk(s, s.next);
    assert s.next in s.returned ==> ReturnOk(s, s.next);
  }

  /** The interrupt handler is at a captured slot. */
  lemma CurrentSlot(s: Sys)
    requires Inv(s) && s.isr.On?
    ensures var i := Scan(s.isr.left, |s.slots|, 0);
            i < |s.slots| && SlotOk(s, i) && s.phase[i].Captured?
  {
    var j :| j in s.isr.left;
    assert j in Below(|s.slots|);
    SlotFacts(s, Scan(s.isr.left, |s.slots|, 0));
  }

  /** No call starts or returns, and answers stay as they were. */
  predicate SameBooks(s: Sys, s': Sys) {
    && s'.returned == s.returned && s'.next == s.next && s'.sent == s.sent
    && s'.calls.Keys == s.calls.Keys
    && (forall t | t in s.served :: t in s'.served && s'.served[t] == s.served[t])
    && (forall t | t in s'.served :: t < s.next)
  }

  lemma BooksKept(s: Sys, s': Sys)
    requires Books(s) && SameBooks(s, s')
    ensures Books(s')
  {
    forall t | t in s'.returned
      ensures ReturnOk(s', t)
    {
      assert ReturnOk(s, t);
    }
  }

  lemma FillMsgSlot(s: Sys, t: Ticket, j: nat)
    requires Frame(s) && SlotOk(s, j)
    requires UserOk(s, t) && s.calls[t].pc.Holds?
    ensures SlotMasks(FillMsg(s, t), j) && SlotData(FillMsg(s, t), j)
  {
  }

  lemma FillMsgCall(s: Sys, t: Ticket, u: Ticket)
    requires Frame(s) && UserOk(s, u)
    requires UserOk(s, t) && s.calls[t].pc.Holds?
    ensures CallOk(FillMsg(s, t), u)
  {
  }

  lemma FillMsgInv(s: Sys, t: Ticket)
    requires Inv(s) && Enabled(s, ClientFillMsg(t))
    ensures Inv(FillMsg(s, t))
  {
    CallFacts(s, t);
    var s' := FillMsg(s, t);
    forall j: nat | j < |s'.slots|
      ensures SlotMasks(s', j) && SlotData(s', j)
    {
      SlotFacts(s, j);
      FillMsgSlot(s, t, j);
    }
    forall u | u in s'.calls
      ensures CallOk(s', u)
    {
      CallFacts(s, u);
      FillMsgCall(s, t, u);
    }
    BooksKept(s, s');
  }

  lemma SetOwnerSlot(s: Sys, t: Ticket, j: nat)
    requires Frame(s) && SlotOk(s, j)
    requires UserOk(s, t) && s.calls[t].pc.MsgFilled?
    ensures SlotMasks(SetOwner(s, t), j) && SlotData(SetOwner(s, t), j)
  {
  }

  lemma SetOwnerCall(s: Sys, t: Ticket, u: Ticket)
    requires Frame(s) && UserOk(s, u)
    requires UserOk(s, t) && s.calls[t].pc.MsgFilled?
    ensures CallOk(SetOwner(s, t), u)
  {
  }

  lemma SetOwnerInv(s: Sys, t: Ticket)
    requires Inv(s) && Enabled(s, ClientSetOwner(t))
    ensures Inv(SetOwner(s, t))
  {
    CallFacts(s, t);
    var s' := SetOwner(s, t);
    forall j: nat | j < |s'.slots|
      ensures SlotMasks(s', j) && SlotData(s', j)
    {
      SlotFacts(s, j);
      SetOwnerSlot(s, t, j);
    }
    forall u | u in s'.calls
      ensures CallOk(s', u)
    {
      CallFacts(s, u);
      SetOwnerCall(s, t, u);
    }
    BooksKept(s, s');
  }

  lemma MakePendingSlot(s: Sys, t: Ticket, j: nat)
    requires Frame(s) && SlotOk(s, j)
    requires UserOk(s, t) && s.calls[t].pc.OwnerSet?
    ensures SlotMasks(MakePending(s, t), j) && SlotData(MakePending(s, t), j)
  {
  }

  lemma MakePendingCall(s: Sys, t: Ticket, u: Ticket)
    requires Frame(s) && UserOk(s, u)
    requires UserOk(s, t) && s.calls[t].pc.OwnerSet?
    ensures CallOk(MakePending(s, t), u)
  {
  }

  lemma MakePendingInv(s: Sys, t: Ticket)
    requires Inv(s) && Enabled(s, ClientPend(t))
    ensures Inv(MakePending(s, t))
  {
    CallFacts(s, t);
    var s' := MakePending(s, t);
    forall j: nat | j < |s'.slots|
      ensures SlotMasks(s', j) && SlotData(s', j)
    {
      SlotFacts(s, j);
      MakePendingSlot(s, t, j);
    }
    forall u | u in s'.calls
      ensures CallOk(s', u)
    {
      CallFacts(s, u);
      MakePendingCall(s, t, u);
    }
    BooksKept(s, s');
  }

  lemma SeeWokenSlot(s: Sys, t: Ticket, j: nat)
    requires Frame(s) && SlotOk(s, j)
    requires UserOk(s, t) && s.calls[t].pc.Waiting? && s.slots[s.calls[t].pc.i].isWoken
    ensures SlotMasks(SeeWoken(s, t), j) && SlotData(SeeWoken(s, t), j)
  {
  }

  lemma SeeWokenCall(s: Sys, t: Ticket, u: Ticket)
    requires Frame(s) && UserOk(s, u)
    requires UserOk(s, t) && s.calls[t].pc.Waiting? && s.slots[s.calls[t].pc.i].isWoken
    ensures CallOk(SeeWoken(s, t), u)
  {
  }

  lemma SeeWokenInv(s: Sys, t: Ticket)
    requires Inv(s) && Enabled(s, ClientSeeWoken(t))
    ensures Inv(SeeWoken(s, t))
  {
    CallFacts(s, t);
    var s' := SeeWoken(s, t);
    forall j: nat | j < |s'.slots|
      ensures SlotMasks(s', j) && SlotData(s', j)
    {
      SlotFacts(s, j);
      SeeWokenSlot(s, t, j);
    }
    forall u | u in s'.calls
      ensures CallOk(s', u)
    {
      CallFacts(s, u);
      SeeWokenCall(s, t, u);
    }
    BooksKept(s, s');
  }

  lemma SeeRepliedSlot(s: Sys, t: Ticket, j: nat)
    requires Frame(s) && SlotOk(s, j)
    requires UserOk(s, t) && s.calls[t].pc.Waiting? && s.calls[t].pc.i in s.replied
    ensures SlotMasks(SeeReplied(s, t), j) && SlotData(SeeReplied(s, t), j)
  {
  }

  lemma SeeRepliedCall(s: Sys, t: Ticket, u: Ticket)
    requires Frame(s) && UserOk(s, u)
    requires UserOk(s, t) && s.calls[t].pc.Waiting? && s.calls[t].pc.i in s.replied
    ensures CallOk(SeeReplied(s, t), u)
  {
  }

  lemma SeeRepliedInv(s: Sys, t: Ticket)
    requires Inv(s) && Enabled(s, ClientSeeReplied(t))
    ensures Inv(SeeReplied(s, t))
  {
    CallFacts(s, t);
    var s' := SeeReplied(s, t);
    forall j: nat | j < |s'.slots|
      ensures SlotMasks(s', j) && SlotData(s', j)
    {
      SlotFacts(s, j);
      SeeRepliedSlot(s, t, j);
    }
    forall u | u in s'.calls
      ensures CallOk(s', u)
    {
      CallFacts(s, u);
      SeeRepliedCall(s, t, u);
    }
    BooksKept(s, s');
  }

  lemma CollectReplySlot(s: Sys, t: Ticket, j: nat)
    requires Frame(s) && SlotOk(s, j)
    requires UserOk(s, t) && s.calls[t].pc.Collecting?
    ensures SlotMasks(CollectReply(s, t), j) && SlotData(CollectReply(s, t), j)
  {
  }

  lemma CollectReplyCall(s: Sys, t: Ticket, u: Ticket)
    requires Frame(s) && UserOk(s, u)
    requires UserOk(s, t) && s.calls[t].pc.Collecting?
    ensures CallOk(CollectReply(s, t), u)
  {
  }

  lemma CollectReplyInv(s: Sys, t: Ticket)
    requires Inv(s) && Enabled(s, ClientCollect(t))
    ensures Inv(CollectReply(s, t))
  {
    CallFacts(s, t);
    var s' := CollectReply(s, t);
    forall j: nat | j < |s'.slots|
      ensures SlotMasks(s', j) && SlotData(s', j)
    {
      SlotFacts(s, j);
      CollectReplySlot(s, t, j);
    }
    forall u | u in s'.calls
      ensures CallOk(s', u)
    {
      CallFacts(s, u);
      CollectReplyCall(s, t, u);
    }
    BooksKept(s, s');
  }

  lemma AcquireSlot(s: Sys, task: Task, msg: Msg, j: nat)
    requires Frame(s) && SlotOk(s, j)
    requires s.next !in s.calls && s.next !in s.served && Scan(s.empty, |s.slots|, 0) < |s.slots|
    ensures SlotMasks(Acquire(s, task, msg), j) && SlotData(Acquire(s, task, msg), j)
  {
  }

  lemma AcquireCall(s: Sys, task: Task, msg: Msg, u: Ticket)
    requires Frame(s) && ((u in s.calls && UserOk(s, u)) || u == s.next)
    requires s.next !in s.calls && s.next !in s.served && Scan(s.empty, |s.slots|, 0) < |s.slots|
    requires s.next !in s.returned && SlotMasks(s, Scan(s.empty, |s.slots|, 0))
    ensures CallOk(Acquire(s, task, msg), u)
  {
  }

  lemma AcquireInv(s: Sys, task: Task, msg: Msg)
    requires Inv(s)
    ensures Inv(Acquire(s, task, msg))
  {
    var idx := Scan(s.empty, |s.slots|, 0);
    if idx == |s.slots| {
      return;
    }
    NextIsNew(s);
    SlotFacts(s, idx);
    var s' := Acquire(s, task, msg);
    forall j: nat | j < |s'.slots|
      ensures SlotMasks(s', j) && SlotData(s', j)
    {
      SlotFacts(s, j);
      AcquireSlot(s, task, msg, j);
    }
    forall u | u in s'.calls
      ensures CallOk(s', u)
    {
      if u in s.calls {
        CallFacts(s, u);
      }
      AcquireCall(s, task, msg, u);
    }
    forall t | t in s'.returned
      ensures ReturnOk(s', t)
    {
      assert ReturnOk(s, t);
    }
  }

  lemma ReleaseSlot(s: Sys, t: Ticket, j: nat)
    requires Frame(s) && SlotOk(s, j)
    requires UserOk(s, t) && s.calls[t].pc.Collected?
    ensures SlotMasks(Release(s, t), j) && SlotData(Release(s, t), j)
  {
  }

  lemma ReleaseCall(s: Sys, t: Ticket, u: Ticket)
    requires Frame(s) && UserOk(s, u) && u != t
    requires UserOk(s, t) && s.calls[t].pc.Collected?
    ensures CallOk(Release(s, t), u)
  {
  }

  lemma ReleaseInv(s: Sys, t: Ticket)
    requires Inv(s) && Enabled(s, ClientRelease(t))
    ensures Inv(Release(s, t))
  {
    CallFacts(s, t);
    var s' := Release(s, t);
    forall j: nat | j < |s'.slots|
      ensures SlotMasks(s', j) && SlotData(s', j)
    {
      SlotFacts(s, j);
      ReleaseSlot(s, t, j);
    }
    forall u | u in s'.calls
      ensures CallOk(s', u)
    {
      CallFacts(s, u);
      ReleaseCall(s, t, u);
    }
    forall u | u in s'.returned
      ensures ReturnOk(s', u)
    {
      assert u != t ==> ReturnOk(s, u);
    }
  }

  lemma CaptureSlot(s: Sys, j: nat)
    requires Frame(s) && SlotOk(s, j)
    requires s.isr.Off?
    ensures SlotMasks(Capture(s), j) && SlotData(Capture(s), j)
  {
    if s.replied == {} {
    } else {
    }
  }

  lemma CaptureCall(s: Sys, u: Ticket)
    requires Frame(s) && UserOk(s, u)
    requires s.isr.Off?
    ensures CallOk(Capture(s), u)
  {
    if s.replied == {} {
    } else {
    }
  }

  lemma CaptureInv(s: Sys)
    requires Inv(s) && Enabled(s, IsrCapture)
    ensures Inv(Capture(s))
  {
    if s.replied == {} {
      return;
    }
    var s' := Capture(s);
    forall j: nat | j < |s'.slots|
      ensures SlotMasks(s', j) && SlotData(s', j)
    {
      SlotFacts(s, j);
      CaptureSlot(s, j);
    }
    forall u | u in s'.calls
      ensures CallOk(s', u)
    {
      CallFacts(s, u);
      CaptureCall(s, u);
    }
    BooksKept(s, s');
  }

  lemma WakeSlotSlot(s: Sys, j: nat)
    requires Frame(s) && SlotOk(s, j)
    requires s.isr.On? && var i := Scan(s.isr.left, |s.slots|, 0); i < |s.slots| && SlotOk(s, i) && s.phase[i].Captured?
    ensures SlotMasks(WakeSlot(s), j) && SlotData(WakeSlot(s), j)
  {
  }

  lemma WakeSlotCall(s: Sys, u: Ticket)
    requires Frame(s) && UserOk(s, u)
    requires s.isr.On? && var i := Scan(s.isr.left, |s.slots|, 0); i < |s.slots| && SlotOk(s, i) && s.phase[i].Captured?
    ensures CallOk(WakeSlot(s), u)
  {
  }

  lemma WakeSlotInv(s: Sys)
    requires Inv(s) && Enabled(s, IsrWake)
    ensures Inv(WakeSlot(s))
  {
    CurrentSlot(s);
    var s' := WakeSlot(s);
    forall j: nat | j < |s'.slots|
      ensures SlotMasks(s', j) && SlotData(s', j)
    {
      SlotFacts(s, j);
      WakeSlotSlot(s, j);
    }
    forall u | u in s'.calls
      ensures CallOk(s', u)
    {
      CallFacts(s, u);
      WakeSlotCall(s, u);
    }
    BooksKept(s, s');
  }

  lemma TakeSlot(s: Sys, i: nat, j: nat)
    requires Frame(s) && SlotOk(s, j)
    requires i in s.pend && SlotOk(s, i)
    ensures SlotMasks(Take(s, i), j) && SlotData(Take(s, i), j)
  {
  }

  lemma TakeCall(s: Sys, i: nat, u: Ticket)
    requires Frame(s) && UserOk(s, u)
    requires i in s.pend && SlotOk(s, i)
    ensures CallOk(Take(s, i), u)
  {
  }

  lemma TakeInv(s: Sys, i: nat)
    requires Inv(s) && Enabled(s, SecureTake(i))
    ensures Inv(Take(s, i))
  {
    SlotFacts(s, i);
    var s' := Take(s, i);
    forall j: nat | j < |s'.slots|
      ensures SlotMasks(s', j) && SlotData(s', j)
    {
      SlotFacts(s, j);
      TakeSlot(s, i, j);
    }
    forall u | u in s'.calls
      ensures CallOk(s', u)
    {
      CallFacts(s, u);
      TakeCall(s, i, u);
    }
    BooksKept(s, s');
  }

  lemma AnswerSlot(s: Sys, i: nat, r: Reply, j: nat)
    requires Frame(s) && SlotOk(s, j)
    requires i in s.secure && SlotOk(s, i) && s.phase[i].AtSecure?
    ensures SlotMasks(Answer(s, i, r), j) && SlotData(Answer(s, i, r), j)
  {
  }

  lemma AnswerCall(s: Sys, i: nat, r: Reply, u: Ticket)
    requires Frame(s) && UserOk(s, u)
    requires i in s.secure && SlotOk(s, i) && s.phase[i].AtSecure?
    ensures CallOk(Answer(s, i, r), u)
  {
  }

  lemma AnswerInv(s: Sys, i: nat, r: Reply)
    requires Inv(s) && Enabled(s, SecureAnswer(i, r))
    ensures Inv(Answer(s, i, r))
  {
    SlotFacts(s, i);
    var s' := Answer(s, i, r);
    forall j: nat | j < |s'.slots|
      ensures SlotMasks(s', j) && SlotData(s', j)
    {
      SlotFacts(s, j);
      AnswerSlot(s, i, r, j);
    }
    forall u | u in s'.calls
      ensures CallOk(s', u)
    {
      CallFacts(s, u);
      AnswerCall(s, i, r, u);
    }
    BooksKept(s, s');
  }

  lemma PublishSlot(s: Sys, i: nat, j: nat)
    requires Frame(s) && SlotOk(s, j)
    requires i in s.secure && SlotOk(s, i) && s.phase[i].Answered?
    ensures SlotMasks(Publish(s, i), j) && SlotData(Publish(s, i), j)
  {
  }

  lemma PublishCall(s: Sys, i: nat, u: Ticket)
    requires Frame(s) && UserOk(s, u)
    requires i in s.secure && SlotOk(s, i) && s.phase[i].Answered?
    ensures CallOk(Publish(s, i), u)
  {
  }

  lemma PublishInv(s: Sys, i: nat)
    requires Inv(s) && Enabled(s, SecurePublish(i))
    ensures Inv(Publish(s, i))
  {
    SlotFacts(s, i);
    var s' := Publish(s, i);
    forall j: nat | j < |s'.slots|
      ensures SlotMasks(s', j) && SlotData(s', j)
    {
      SlotFacts(s, j);
      PublishSlot(s, i, j);
    }
    forall u | u in s'.calls
      ensures CallOk(s', u)
    {
      CallFacts(s, u);
      PublishCall(s, i, u);
    }
    BooksKept(s, s');
  }

  /** Every step from a good state leads to a good state. */
  lemma StepInv(s: Sys, step: Step)
    requires Inv(s) && Enabled(s, step)
    ensures Inv(Apply(s, step))
  {
    match step
    case ClientAcquire(task, msg) => AcquireInv(s, task, msg);
    case ClientFillMsg(t) => FillMsgInv(s, t);
    case ClientSetOwner(t) => SetOwnerInv(s, t);
    case ClientPend(t) => MakePendingInv(s, t);
    case ClientSeeWoken(t) => SeeWokenInv(s, t);
    case ClientSeeReplied(t) => SeeRepliedInv(s, t);
    case ClientCollect(t) => CollectReplyInv(s, t);
    case ClientRelease(t) => ReleaseInv(s, t);
    case IsrCapture => CaptureInv(s);
    case IsrWake => WakeSlotInv(s);
    case SecureTake(i) => TakeInv(s, i);
    case SecureAnswer(i, r) => AnswerInv(s, i, r);
    case SecurePublish(i) => PublishInv(s, i);
  }
}
