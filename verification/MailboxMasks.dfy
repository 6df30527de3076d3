/** The status masks of a mailbox queue (tfm_ns_mailbox.h): 32-bit words updated in place, shared by both variants. */
module MailboxMasks {
  import opened SlotMask
  import opened MailboxTypes

  const MAILBOX_SUCCESS := 0
  const MAILBOX_QUEUE_FULL := -0x8000_0000 + 1
  const MAILBOX_NO_PEND_EVENT := -0x8000_0000 + 4

  class QueueMasks {
    const slotCount: nat
    var emptySlots: Word
    var pendSlots: Word
    var repliedSlots: Word

    ghost predicate Valid() {
      1 <= slotCount <= WIDTH
    }

    /** The masks stand for these sets of slots. */
    ghost predicate Are(empty: set<nat>, pend: set<nat>, replied: set<nat>)
      reads this
    {
      Valid() && Slots(emptySlots) == empty && Slots(pendSlots) == pend && Slots(repliedSlots) == replied
    }

    /** `tfm_ns_mailbox_init`: every slot empty, whatever the number of slots up to 32. */
    constructor (n: nat)
      requires 1 <= n <= WIDTH
      ensures slotCount == n && Are(Below(n), {}, {})
    {
      slotCount := n;
      pendSlots := Zero();
      repliedSlots := Zero();
      emptySlots := AllSlots(n);
      AllSlotsIsBelow(n);
      ZeroIsEmpty(Zero());
    }

    method ClearQueueSlotEmpty(idx: nat)
      requires Valid()
      modifies this`emptySlots
      ensures Slots(emptySlots) == if idx < slotCount then old(Slots(emptySlots)) - {idx} else old(Slots(emptySlots))
    {
      if idx < slotCount {
        ClearSlot(emptySlots, idx);
        emptySlots := And(emptySlots, Not(Unit(idx)));
      }
    }

    method SetQueueSlotPend(idx: nat)
      requires Valid()
      modifies this`pendSlots
      ensures Slots(pendSlots) == if idx < slotCount then old(Slots(pendSlots)) + {idx} else old(Slots(pendSlots))
    {
      if idx < slotCount {
        AddSlot(pendSlots, idx);
        pendSlots := Or(pendSlots, Unit(idx));
      }
    }

    method SetQueueSlotEmpty(idx: nat)
      requires Valid()
      modifies this`emptySlots
      ensures Slots(emptySlots) == if idx < slotCount then old(Slots(emptySlots)) + {idx} else old(Slots(emptySlots))
    {
      if idx < slotCount {
        AddSlot(emptySlots, idx);
        emptySlots := Or(emptySlots, Unit(idx));
      }
    }

    method SetQueueSlotAllEmpty(completed: Word)
      requires Valid()
      modifies this`emptySlots
      ensures Slots(emptySlots) == old(Slots(emptySlots)) + Slots(completed)
    {
      JoinSlots(emptySlots, completed);
      emptySlots := Or(emptySlots, completed);
    }

    method ClearQueueSlotAllReplied() returns (status: Word)
      requires Valid()
      modifies this`repliedSlots
      ensures status == old(repliedSlots) && Slots(repliedSlots) == {}
    {
      status := repliedSlots;
      repliedSlots := Zero();
      ZeroIsEmpty(Zero());
    }

    /** True exactly when no slot of the queue is in use. */
    method AllQueueSlotsEmpty() returns (all: bool)
      requires Valid()
      ensures all <==> Below(slotCount) <= Slots(emptySlots)
    {
      var empty := AllSlots(slotCount);
      all := And(emptySlots, empty) == empty;
      CoversAllSlots(emptySlots, slotCount);
    }

    /** The loop over the bits of a status word: the lowest slot whose bit is one. */
    method LowestSlot(status: Word) returns (idx: nat)
      requires Valid()
      ensures idx == Scan(Slots(status), slotCount, 0)
    {
      idx := 0;
      while idx < slotCount
        invariant idx <= slotCount
        invariant Scan(Slots(status), slotCount, idx) == Scan(Slots(status), slotCount, 0)
      {
        TestSlot(status, idx);
        if And(status, Unit(idx)) != Zero() {
          return;
        }
        idx := idx + 1;
      }
    }

    /** `acquire_empty_slot` of the direct variant: one locked section that finds and claims the lowest
        empty slot, or reports the slot count when there is none. */
    method AcquireEmptySlot() returns (idx: nat)
      requires Valid() && Slots(emptySlots) <= Below(slotCount)
      modifies this`emptySlots
      ensures idx <= slotCount && (old(Slots(emptySlots)) == {} <==> idx == slotCount)
      ensures idx < slotCount ==>
                && idx in old(Slots(emptySlots))
                && (forall j | j in old(Slots(emptySlots)) :: idx <= j)
                && Slots(emptySlots) == old(Slots(emptySlots)) - {idx}
      ensures idx == slotCount ==> emptySlots == old(emptySlots)
    {
      var status := emptySlots;
      ZeroIsEmpty(status);
      if status == Zero() {
        return slotCount;
      }
      idx := LowestSlot(status);
      ghost var j :| j in Slots(status);
      assert j in Below(slotCount);
      ClearQueueSlotEmpty(idx);
    }
  }
}
