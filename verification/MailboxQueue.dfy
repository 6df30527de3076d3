/** The non-secure mailbox queue of the threaded variant as the program keeps it, and its reply interrupt handler,
    which is proved to perform steps of the protocol in `MailboxThread`. */
module MailboxQueue {
  import opened SlotMask
  import opened MailboxTypes
  import opened MailboxMasks
  import opened MailboxThread

  /** Runs a sequence of protocol steps. */
  ghost predicate Executes(s: Sys, steps: seq<Step>, s': Sys)
    decreases |steps|
  {
    if steps == [] then s' == s
    else Enabled(s, steps[0]) && Executes(Apply(s, steps[0]), steps[1..], s')
  }

  lemma {:induction false} ExecutesSnoc(s: Sys, steps: seq<Step>, m: Sys, step: Step)
    requires Executes(s, steps, m) && Enabled(m, step)
    ensures Executes(s, steps + [step], Apply(m, step))
    decreases |steps|
  {
    if steps == [] {
      assert (steps + [step])[1..] == [];
    } else {
      assert (steps + [step])[1..] == steps[1..] + [step];
      ExecutesSnoc(Apply(s, steps[0]), steps[1..], m, step);
    }
  }

  /** `s'` follows from `s` by steps of the interrupt handler. */
  ghost predicate Follows(s: Sys, s': Sys) {
    Inv(s) && exists steps :: IsrOnly(steps) && Executes(s, steps, s')
  }

  ghost predicate IsrOnly(steps: seq<Step>) {
    forall k | 0 <= k < |steps| :: IsIsrStep(steps[k])
  }

  lemma {:induction false} ExecutesInv(s: Sys, steps: seq<Step>, s': Sys)
    requires Inv(s) && Executes(s, steps, s')
    ensures Inv(s')
    decreases |steps|
  {
    if steps != [] {
      StepInv(s, steps[0]);
      ExecutesInv(Apply(s, steps[0]), steps[1..], s');
    }
  }

  lemma FollowsInv(s: Sys, m: Sys)
    requires Follows(s, m)
    ensures Inv(m)
  {
    var steps :| IsrOnly(steps) && Executes(s, steps, m);
    ExecutesInv(s, steps, m);
  }

  lemma FollowsStep(s: Sys, m: Sys, step: Step)
    requires Follows(s, m) && Enabled(m, step) && IsIsrStep(step)
    ensures Follows(s, ApplyIsr(m, step))
  {
    var steps :| IsrOnly(steps) && Executes(s, steps, m);
    ExecutesSnoc(s, steps, m, step);
    assert IsrOnly(steps + [step]);
  }

  /** The first step of the interrupt handler. */
  lemma CaptureSteps(s: Sys) returns (s': Sys)
    requires Inv(s) && s.isr.Off?
    ensures Follows(s, s')
    ensures s.replied == {} ==> s' == s
    ensures s.replied != {} ==> s' == s.(isr := On(s.replied, {}, false), replied := {}, phase := s'.phase)
  {
    assert IsrOnly([]) && Executes(s, [], s);
    FollowsStep(s, s, IsrCapture);
    s' := Capture(s);
    if s.replied == {} {
    } else {
    }
  }

  /** The interrupt handler is about to handle slot `idx`. */
  ghost predicate AtSlot(m: Sys, idx: nat) {
    && m.isr.On? && idx in m.isr.left && idx < |m.slots|
    && (forall j: nat | j < idx :: j !in m.isr.left)
  }

  ghost function ReplyWritten(m: Sys, idx: nat): map<Addr, Reply>
    requires idx < |m.slots|
  {
    if m.slots[idx].replyPtr == NULL then m.replies else m.replies[m.slots[idx].replyPtr := m.slots[idx].reply]
  }

  /** The loop index is the slot the protocol's interrupt handler is at. */
  lemma AtCurrent(s: Sys, m: Sys, idx: nat)
    requires Follows(s, m) && AtSlot(m, idx)
    ensures Current(m) == idx && idx < |m.phase|
  {
    FollowsInv(s, m);
    CurrentSlot(m);
  }

  lemma CopyEffect(m: Sys, idx: nat)
    requires AtSlot(m, idx) && Current(m) == idx && idx < |m.phase|
    ensures CopyReply(m) == m.(replies := ReplyWritten(m, idx), isr := m.isr.(copied := true), phase := CopyReply(m).phase)
  {
    if m.slots[idx].replyPtr == NULL {
    } else {
    }
  }

  lemma WakeEffect(m: Sys, idx: nat)
    requires AtSlot(m, idx) && Current(m) == idx && idx < |m.phase|
    ensures WakeOwner(m) == m.(flags := m.flags[m.slots[idx].wokenPtr := true],
                               isr := On(m.isr.left - {idx}, m.isr.done + {idx}, false),
                               phase := WakeOwner(m).phase, calls := WakeOwner(m).calls)
  {
  }

  /** The two steps of the interrupt handler for one captured slot. */
  lemma HandleSlot(s: Sys, m: Sys, idx: nat) returns (s': Sys)
    requires Follows(s, m) && AtSlot(m, idx) && !m.isr.copied
    ensures Follows(s, s')
    ensures s' == m.(replies := ReplyWritten(m, idx), flags := m.flags[m.slots[idx].wokenPtr := true],
                     isr := On(m.isr.left - {idx}, m.isr.done + {idx}, false),
                     phase := s'.phase, calls := s'.calls)
  {
    AtCurrent(s, m, idx);
    FollowsStep(s, m, IsrCopy);
    CopyEffect(m, idx);
    var m' := CopyReply(m);
    AtCurrent(s, m', idx);
    FollowsStep(s, m', IsrWake);
    WakeEffect(m', idx);
    s' := WakeOwner(m');
  }

  lemma FinishSteps(s: Sys, m: Sys) returns (s': Sys)
    requires Follows(s, m) && m.isr.On? && m.isr.left == {}
    ensures Follows(s, s')
    ensures s' == m.(empty := m.empty + m.isr.done, isr := Off, phase := s'.phase)
  {
    FollowsStep(s, m, IsrFinish);
    s' := FinishIsr(m);
  }

  /** Leaving the loop, by its bound or by the early exit, means no captured slot is left. */
  lemma NoneLeft(s: Sys, m: Sys, n: nat, idx: nat)
    requires Follows(s, m) && m.isr.On? && n == |m.slots|
    requires m.isr.left == {} || (idx == n && forall j: nat | j < idx :: j !in m.isr.left)
    ensures m.isr.left == {}
  {
    FollowsInv(s, m);
  }

  class NsMailboxQueue {
    const masks: QueueMasks
    var isFull: bool
    var slots: seq<Slot>
    // client memory reached through the pointers stored in the slots
    var replies: map<Addr, Reply>
    var flags: map<Addr, bool>

    ghost predicate Valid()
      reads this
    {
      masks.Valid() && |slots| == masks.slotCount
    }

    /** The queue holds what the protocol state says. */
    ghost predicate Matches(s: Sys)
      reads this, masks
    {
      && Valid() && masks.Are(s.empty, s.pend, s.replied)
      && slots == s.slots && replies == s.replies && flags == s.flags && isFull == s.isFull
    }

    /** `tfm_ns_mailbox_init`. */
    constructor (n: nat, initial: seq<Slot>)
      requires 1 <= n <= WIDTH && |initial| == n
      ensures Valid() && fresh(masks) && masks.Are(Below(n), {}, {}) && slots == initial && !isFull
    {
      masks := new QueueMasks(n);
      slots := initial;
      isFull := false;
      replies := map[];
      flags := map[];
    }

    method SetReplyIsr(idx: nat)
      requires idx < |slots|
      modifies this`replies
      ensures replies == if slots[idx].replyPtr == NULL then old(replies)
                         else old(replies)[slots[idx].replyPtr := slots[idx].reply]
    {
      if slots[idx].replyPtr != NULL {
        replies := replies[slots[idx].replyPtr := slots[idx].reply];
      }
    }

    method SetQueueSlotWoken(idx: nat)
      requires Valid()
      modifies this`flags
      ensures flags == if idx < masks.slotCount then old(flags)[slots[idx].wokenPtr := true] else old(flags)
    {
      if idx < masks.slotCount {
        flags := flags[slots[idx].wokenPtr := true];
      }
    }

    /** The handler's loop over the captured bits: copies every captured reply, raises every flag and
        collects the slots it has completed. */
    method HandleReplied(captured: Word, ghost s: Sys, ghost m: Sys) returns (completeSlots: Word, ghost s': Sys)
      requires Matches(m) && Follows(s, m) && m.isr == On(Slots(captured), {}, false)
      modifies this`replies, this`flags
      ensures Matches(s') && Follows(s, s')
      ensures Slots(completeSlots) == Slots(captured)
      ensures s'.isr == On({}, Slots(captured), false)
      ensures s'.empty == m.empty && s'.replied == m.replied
    {
      s' := m;
      var repliedStatus := captured;
      completeSlots := Zero();
      ZeroIsEmpty(completeSlots);
      var idx := 0;
      while idx < masks.slotCount
        invariant idx <= masks.slotCount
        invariant Follows(s, s')
        invariant Matches(s') && s'.isr == On(Slots(repliedStatus), Slots(completeSlots), false)
        invariant Slots(repliedStatus) + Slots(completeSlots) == Slots(captured)
        invariant s'.empty == m.empty && s'.replied == m.replied
        invariant forall j: nat | j < idx :: j !in Slots(repliedStatus)
      {
        TestSlot(repliedStatus, idx);
        if And(repliedStatus, Unit(idx)) != Zero() {
          s' := HandleSlot(s, s', idx);
          SetReplyIsr(idx);
          SetQueueSlotWoken(idx);
          AddSlot(completeSlots, idx);
          completeSlots := Or(completeSlots, Unit(idx));
          ClearSlot(repliedStatus, idx);
          repliedStatus := And(repliedStatus, Not(Unit(idx)));
          ZeroIsEmpty(repliedStatus);
          if repliedStatus == Zero() {
            break;
          }
        }
        idx := idx + 1;
      }
      NoneLeft(s, s', masks.slotCount, idx);
    }

    /** The critical section of the handler: it takes all replied bits. */
    method CaptureReplied(ghost s: Sys) returns (status: Word, ghost s': Sys)
      requires Matches(s) && Inv(s) && s.isr.Off?
      modifies masks
      ensures Follows(s, s') && Matches(s') && Slots(status) == s.replied
      ensures s.replied == {} ==> s' == s
      ensures s.replied != {} ==> s'.isr == On(s.replied, {}, false) && s'.replied == {} && s'.empty == s.empty
    {
      s' := CaptureSteps(s);
      assert s'.replied == {} && s'.empty == s.empty && s'.pend == s.pend && s'.isFull == s.isFull;
      assert s'.slots == s.slots && s'.replies == s.replies && s'.flags == s.flags;
      status := masks.ClearQueueSlotAllReplied();
    }

    /** The end of the handler: the completed slots become empty. */
    method ReleaseCompleted(completeSlots: Word, ghost s: Sys, ghost m: Sys) returns (ghost s': Sys)
      requires Matches(m) && Follows(s, m) && m.isr == On({}, Slots(completeSlots), false)
      modifies masks
      ensures Follows(s, s') && Matches(s') && s'.isr.Off?
      ensures s'.empty == m.empty + Slots(completeSlots) && s'.replied == m.replied
    {
      s' := FinishSteps(s, m);
      masks.SetQueueSlotAllEmpty(completeSlots);
    }

    /** `tfm_ns_mailbox_wake_reply_owner_isr`: the handler does what a sequence of interrupt steps of the
        protocol does; every replied slot becomes empty and no reply is left unhandled. */
    method WakeReplyOwnerIsr(ghost s: Sys) returns (ret: int, ghost s': Sys)
      requires Matches(s) && Inv(s) && s.isr.Off?
      modifies this, masks
      ensures Follows(s, s') && s'.isr.Off? && Matches(s')
      ensures ret == if s.replied == {} then MAILBOX_NO_PEND_EVENT else MAILBOX_SUCCESS
      ensures s'.replied == {} && s'.empty == s.empty + s.replied
    {
      var repliedStatus, completeSlots;
      repliedStatus, s' := CaptureReplied(s);
      ZeroIsEmpty(repliedStatus);
      if repliedStatus == Zero() {
        return MAILBOX_NO_PEND_EVENT, s';
      }
      completeSlots, s' := HandleReplied(repliedStatus, s, s');
      s' := ReleaseCompleted(completeSlots, s, s');
      ret := MAILBOX_SUCCESS;
    }
  }
}
