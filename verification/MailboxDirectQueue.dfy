/** The non-secure mailbox queue of the direct variant (tfm_ns_mailbox.c) as the program keeps it. Every locked
    section and every separate access is one method and is proved to be one step of the protocol in `MailboxDirect`,
    the interrupt handler a sequence of them. */
module MailboxDirectQueue {
  import opened SlotMask
  import opened MailboxTypes
  import opened MailboxMasks
  import opened MailboxDirect

  /** The interrupt handler's steps for all captured slots. */
  ghost function WakeAll(s: Sys): (s': Sys)
    requires Inv(s)
    ensures Inv(s') && s'.isr.Off?
    decreases IsrLeft(s)
  {
    if s.isr.Off? then s
    else
      CurrentSlot(s);
      StepInv(s, IsrWake);
      WakeAll(Apply(s, IsrWake))
  }

  /** All captured slots are woken, and nothing else changes that the queue holds. */
  lemma {:induction false} WakeAllWakes(s: Sys, i: nat)
    requires Inv(s) && i < |s.slots|
    ensures var s' := WakeAll(s);
            && |s'.slots| == |s.slots| && s'.empty == s.empty && s'.pend == s.pend && s'.replied == s.replied
            && s'.slots[i] == if i in IsrLeft(s) then s.slots[i].(isWoken := true) else s.slots[i]
    decreases IsrLeft(s)
  {
    if s.isr.On? {
      CurrentSlot(s);
      StepInv(s, IsrWake);
      WakeAllWakes(Apply(s, IsrWake), i);
    }
  }

  /** One step of the handler, at the slot its loop is at. */
  lemma WakeStep(s: Sys, idx: nat) returns (s': Sys)
    requires Inv(s) && s.isr.On? && idx in s.isr.left && forall j: nat | j < idx :: j !in s.isr.left
    ensures Inv(s') && WakeAll(s') == WakeAll(s) && idx < |s.slots|
    ensures s'.empty == s.empty && s'.pend == s.pend && s'.replied == s.replied
    ensures s'.slots == s.slots[idx := s.slots[idx].(isWoken := true)]
    ensures s'.isr == if s.isr.left - {idx} == {} then Off else On(s.isr.left - {idx})
  {
    CurrentSlot(s);
    assert Scan(s.isr.left, |s.slots|, 0) == idx;
    StepInv(s, IsrWake);
    s' := Apply(s, IsrWake);
  }

  class DirectQueue {
    const masks: QueueMasks
    var slots: seq<Slot>

    ghost predicate Matches(s: Sys)
      reads this, masks
    {
      masks.Are(s.empty, s.pend, s.replied) && |slots| == masks.slotCount && slots == s.slots
    }

    /** `tfm_ns_mailbox_init`. */
    constructor (n: nat, initial: seq<Slot>)
      requires 1 <= n <= WIDTH && |initial| == n
      ensures fresh(masks) && masks.slotCount == n && masks.Are(Below(n), {}, {}) && slots == initial
    {
      masks := new QueueMasks(n);
      slots := initial;
    }

    /** `acquire_empty_slot`: one locked section. The slot count stands for MAILBOX_QUEUE_FULL and is returned
        exactly when no slot is empty. */
    method Acquire(task: Task, msg: Msg, ghost s: Sys) returns (idx: nat)
      requires Matches(s) && Inv(s)
      modifies masks
      ensures Matches(Apply(s, ClientAcquire(task, msg)))
      ensures idx == masks.slotCount <==> s.empty == {}
      ensures Slots(masks.emptySlots) == s.empty - {idx} && (s.empty != {} ==> Lowest(s.empty, idx))
      ensures idx < masks.slotCount ==>
                var s' := Apply(s, ClientAcquire(task, msg));
                s.next in s'.calls && s'.calls[s.next] == Call(task, msg, Holds(idx))
    {
      idx := masks.AcquireEmptySlot();
      ScanIsLowest(s.empty, |s.slots|, idx);
    }

    /** Filling the message, `mailbox_tx_client_req`. */
    method FillMessage(idx: nat, msg: Msg, ghost s: Sys, ghost t: Ticket)
      requires Matches(s) && Enabled(s, ClientFillMsg(t)) && s.calls[t].pc.i == idx && s.calls[t].msg == msg
      modifies this
      ensures Matches(Apply(s, ClientFillMsg(t)))
      ensures idx < |slots| && slots == old(slots)[idx := old(slots)[idx].(msg := msg)]
    {
      slots := slots[idx := slots[idx].(msg := msg)];
    }

    /** `set_msg_owner`. */
    method SetMsgOwner(idx: nat, owner: Task, ghost s: Sys, ghost t: Ticket)
      requires Matches(s) && Enabled(s, ClientSetOwner(t)) && s.calls[t].pc.i == idx && s.calls[t].task == owner
      modifies this
      ensures Matches(Apply(s, ClientSetOwner(t)))
      ensures idx < |slots| && slots == old(slots)[idx := old(slots)[idx].(owner := owner)]
    {
      if idx < masks.slotCount {
        slots := slots[idx := slots[idx].(owner := owner)];
      }
    }

    /** The critical section that makes the slot pending. */
    method MakeSlotPending(idx: nat, ghost s: Sys, ghost t: Ticket)
      requires Matches(s) && Enabled(s, ClientPend(t)) && s.calls[t].pc.i == idx
      modifies masks
      ensures Matches(Apply(s, ClientPend(t)))
      ensures Slots(masks.pendSlots) == old(Slots(masks.pendSlots)) + {idx}
    {
      masks.SetQueueSlotPend(idx);
    }

    /** `mailbox_wait_reply_signal` with an operating system: either the client's step, or nothing yet. */
    method WaitReplySignal(idx: nat, ghost s: Sys, ghost t: Ticket) returns (isSet: bool)
      requires Matches(s) && AtPc(s, t) && s.calls[t].pc == Waiting(idx)
      modifies this
      ensures isSet == old(slots)[idx].isWoken && (isSet <==> Enabled(s, ClientSeeWoken(t)))
      ensures Matches(if isSet then Apply(s, ClientSeeWoken(t)) else s)
    {
      isSet := false;
      if slots[idx].isWoken {
        slots := slots[idx := slots[idx].(isWoken := false)];
        isSet := true;
      }
    }

    /** `mailbox_wait_reply_signal` on bare metal. */
    method PollReplySignal(idx: nat, ghost s: Sys, ghost t: Ticket) returns (isSet: bool)
      requires Matches(s) && AtPc(s, t) && s.calls[t].pc == Waiting(idx)
      modifies masks
      ensures isSet == (idx in old(Slots(masks.repliedSlots))) && (isSet <==> Enabled(s, ClientSeeReplied(t)))
      ensures Matches(if isSet then Apply(s, ClientSeeReplied(t)) else s)
    {
      TestSlot(masks.repliedSlots, idx);
      isSet := false;
      if And(masks.repliedSlots, Unit(idx)) != Zero() {
        ClearSlot(masks.repliedSlots, idx);
        masks.repliedSlots := And(masks.repliedSlots, Not(Unit(idx)));
        isSet := true;
      }
    }

    /** First part of `mailbox_rx_client_reply`. */
    method CollectReplyOf(idx: nat, ghost s: Sys, ghost t: Ticket) returns (reply: Reply)
      requires Matches(s) && Enabled(s, ClientCollect(t)) && s.calls[t].pc == Collecting(idx)
      modifies this
      ensures Matches(Apply(s, ClientCollect(t)))
      ensures Apply(s, ClientCollect(t)).calls[t].pc == Collected(idx, reply)
      ensures idx < |slots| && reply == old(slots)[idx].reply && slots == old(slots)[idx := old(slots)[idx].(owner := 0)]
    {
      reply := slots[idx].reply;
      slots := slots[idx := slots[idx].(owner := 0)];
    }

    /** Its locked part: the slot becomes empty. */
    method ReleaseSlot(idx: nat, ghost s: Sys, ghost t: Ticket)
      requires Matches(s) && Enabled(s, ClientRelease(t)) && s.calls[t].pc.i == idx
      modifies this, masks
      ensures Matches(Apply(s, ClientRelease(t)))
      ensures Slots(masks.emptySlots) == old(Slots(masks.emptySlots)) + {idx}
      ensures idx < |slots| && slots == old(slots)[idx := old(slots)[idx].(isWoken := false)]
    {
      slots := slots[idx := slots[idx].(isWoken := false)];
      masks.SetQueueSlotEmpty(idx);
    }

    /** The loop over the captured bits. */
    method WakeCaptured(captured: Word, ghost s: Sys) returns (ghost s': Sys)
      requires Matches(s) && Inv(s) && s.isr == On(Slots(captured))
      modifies this
      ensures s' == WakeAll(s) && Matches(s')
    {
      s' := s;
      var repliedStatus := captured;
      var idx := 0;
      while idx < masks.slotCount
        invariant idx <= masks.slotCount && Matches(s') && Inv(s') && WakeAll(s') == WakeAll(s)
        invariant s'.isr == On(Slots(repliedStatus))
        invariant forall j: nat | j < idx :: j !in Slots(repliedStatus)
      {
        TestSlot(repliedStatus, idx);
        if And(repliedStatus, Unit(idx)) != Zero() {
          s' := WakeStep(s', idx);
          slots := slots[idx := slots[idx].(isWoken := true)];
          ClearSlot(repliedStatus, idx);
          repliedStatus := And(repliedStatus, Not(Unit(idx)));
          ZeroIsEmpty(repliedStatus);
          if repliedStatus == Zero() {
            return;
          }
        }
        idx := idx + 1;
      }
      CurrentSlot(s');
    }

    /** `tfm_ns_mailbox_wake_reply_owner_isr`: capture and then one step for every captured slot; every replied
        slot is marked woken and none is left. */
    method WakeReplyOwnerIsr(ghost s: Sys) returns (ret: int, ghost s': Sys)
      requires Matches(s) && Inv(s) && s.isr.Off?
      modifies this, masks
      ensures ret == if s.replied == {} then MAILBOX_NO_PEND_EVENT else MAILBOX_SUCCESS
      ensures Inv(Apply(s, IsrCapture)) && s' == WakeAll(Apply(s, IsrCapture)) && Matches(s')
      ensures s'.replied == {}
      ensures forall i | 0 <= i < |slots| :: slots[i] == if i in s.replied then s.slots[i].(isWoken := true) else s.slots[i]
    {
      StepInv(s, IsrCapture);
      s' := Apply(s, IsrCapture);
      ghost var first := s';
      forall i: nat | i < |s.slots|
        ensures WakeAll(first).replied == {} && |WakeAll(first).slots| == |s.slots|
        ensures WakeAll(first).slots[i] == if i in s.replied then s.slots[i].(isWoken := true) else s.slots[i]
      {
        WakeAllWakes(first, i);
      }
      assert WakeAll(first).slots[0] == WakeAll(first).slots[0];
      var repliedStatus := masks.ClearQueueSlotAllReplied();
      ZeroIsEmpty(repliedStatus);
      if repliedStatus == Zero() {
        return MAILBOX_NO_PEND_EVENT, s';
      }
      s' := WakeCaptured(repliedStatus, s');
      ret := MAILBOX_SUCCESS;
    }
  }

  /** The scan of the protocol finds the lowest element. */
  lemma ScanIsLowest(status: set<nat>, n: nat, idx: nat)
    requires idx <= n && (idx < n ==> idx in status)
    requires forall j: nat | j in status :: idx <= j
    ensures Scan(status, n, 0) == idx
  {
    var k := Scan(status, n, 0);
    assert k < n ==> k in status;
  }
}
