/** What each step of the direct mailbox does in a run, in terms of the shared data and the calls' program counters
    alone. */
module MailboxDirectSteps {
  import opened SlotMask
  import opened MailboxTypes
  import opened MailboxDirect
  import opened MailboxDirectRuns

  /** A client claims the lowest empty slot; if there is none, nothing changes. */
  lemma ClientClaims(r: Run, k: nat)
    requires IsRun(r) && k < |r.steps| && r.steps[k].ClientAcquire?
    ensures var s, s', task, msg := r.states[k], r.states[k + 1], r.steps[k].task, r.steps[k].msg;
            && (s.empty == {} ==> s' == s)
            && (s.empty != {} ==>
                  exists i: nat ::
                    && Lowest(s.empty, i) && i < |s.phase|
                    && s'.calls == s.calls[s.next := Call(task, msg, Holds(i))] && s'.sent == s.sent[s.next := msg]
                    && s' == s.(empty := s.empty - {i}, phase := s.phase[i := Filling(s.next)], calls := s'.calls,
                                sent := s'.sent, next := s.next + 1))
  {
    RunInv(r, k);
    assert Follows(r, k);
    var s := r.states[k];
    var i := Scan(s.empty, |s.slots|, 0);
    if s.empty != {} {
      var j :| j in s.empty;
      assert j in Below(|s.slots|);
      assert Lowest(s.empty, i);
    }
  }

  /** Before the slot is pending, message and owner are those of the call, one after the other. */
  lemma ClientFills(r: Run, k: nat)
    requires IsRun(r) && k < |r.steps| && (r.steps[k].ClientFillMsg? || r.steps[k].ClientSetOwner?)
    ensures var s, s', t := r.states[k], r.states[k + 1], r.steps[k].t;
            && t in s.calls && s.calls[t].pc.i < |s.slots|
            && var i, c := s.calls[t].pc.i, s.calls[t];
            if r.steps[k].ClientFillMsg? then
              && s'.slots == s.slots[i := s.slots[i].(msg := c.msg)]
              && s' == s.(slots := s'.slots, calls := s.calls[t := c.(pc := MsgFilled(i))])
            else
              && s'.slots == s.slots[i := s.slots[i].(owner := c.task)]
              && s' == s.(slots := s'.slots, calls := s.calls[t := c.(pc := OwnerSet(i))])
  {
    assert Follows(r, k);
  }

  /** The slot becomes pending and the call waits. */
  lemma ClientPends(r: Run, k: nat)
    requires IsRun(r) && k < |r.steps| && r.steps[k].ClientPend?
    ensures var s, s', t := r.states[k], r.states[k + 1], r.steps[k].t;
            && t in s.calls && s.calls[t].pc.i < |s.phase|
            && var i := s.calls[t].pc.i;
            s' == s.(pend := s.pend + {i}, calls := s.calls[t := s.calls[t].(pc := Waiting(i))], phase := s.phase[i := Pending(t)])
  {
    assert Follows(r, k);
  }

  /** The wait ends when the slot is marked woken, or, polling, when its replied bit is set; the mark or the bit is
      taken back. */
  lemma ClientSees(r: Run, k: nat)
    requires IsRun(r) && k < |r.steps| && (r.steps[k].ClientSeeWoken? || r.steps[k].ClientSeeReplied?)
    ensures var s, s', t := r.states[k], r.states[k + 1], r.steps[k].t;
            && t in s.calls && s.calls[t].pc.i < |s.slots| && s.calls[t].pc.i < |s.phase|
            && var i := s.calls[t].pc.i;
            && s'.calls == s.calls[t := s.calls[t].(pc := Collecting(i))] && s'.phase == s.phase[i := Collect(t)]
            && if r.steps[k].ClientSeeWoken? then
                 s.slots[i].isWoken && s' == s.(slots := s.slots[i := s.slots[i].(isWoken := false)], calls := s'.calls, phase := s'.phase)
               else
                 i in s.replied && s' == s.(replied := s.replied - {i}, calls := s'.calls, phase := s'.phase)
  {
    assert Follows(r, k);
  }

  /** The reply is copied out and the owner cleared; then the slot becomes empty and the call returns the reply. */
  lemma ClientCollects(r: Run, k: nat)
    requires IsRun(r) && k < |r.steps| && (r.steps[k].ClientCollect? || r.steps[k].ClientRelease?)
    ensures var s, s', t := r.states[k], r.states[k + 1], r.steps[k].t;
            && t in s.calls && s.calls[t].pc.i < |s.slots| && s.calls[t].pc.i < |s.phase|
            && var i := s.calls[t].pc.i;
            if r.steps[k].ClientCollect? then
              s' == s.(slots := s.slots[i := s.slots[i].(owner := 0)],
                       calls := s.calls[t := s.calls[t].(pc := Collected(i, s.slots[i].reply))])
            else
              && s.calls[t].pc.Collected?
              && s' == s.(slots := s.slots[i := s.slots[i].(isWoken := false)], empty := s.empty + {i}, calls := s.calls - {t},
                          phase := s.phase[i := Empty], returned := s.returned[t := s.calls[t].pc.reply])
  {
    assert Follows(r, k);
  }

  /** The interrupt handler takes the whole replied mask, or stops if it is zero. */
  lemma IsrCaptures(r: Run, k: nat)
    requires IsRun(r) && k < |r.steps| && r.steps[k].IsrCapture?
    ensures var s, s' := r.states[k], r.states[k + 1];
            && (s.replied == {} ==> s' == s)
            && (s.replied != {} ==> s' == s.(replied := {}, isr := On(s.replied), phase := s'.phase))
  {
    assert Follows(r, k);
  }

  /** It marks the lowest captured slot woken, and the client it wakes, the owner of the slot, is the one whose call
      the slot serves. */
  lemma IsrWakes(r: Run, k: nat)
    requires IsRun(r) && k < |r.steps| && r.steps[k].IsrWake?
    ensures var s, s' := r.states[k], r.states[k + 1];
            && s.isr.On?
            && exists i: nat, t ::
                 && Lowest(s.isr.left, i) && i < |s.slots|
                 && t in s.calls && s.calls[t].pc == Waiting(i) && s.slots[i].owner == s.calls[t].task
                 && s' == s.(slots := s.slots[i := s.slots[i].(isWoken := true)],
                             isr := if s.isr.left - {i} == {} then Off else On(s.isr.left - {i}), phase := s'.phase)
  {
    RunInv(r, k);
    assert Follows(r, k);
    var s := r.states[k];
    CurrentSlot(s);
    var i := Scan(s.isr.left, |s.slots|, 0);
    var t := s.phase[i].t;
    assert Lowest(s.isr.left, i);
    assert s.calls[t].pc == Waiting(i) && s.slots[i].owner == s.calls[t].task;
  }

  /** The secure core takes the message of a pending slot, stores its reply in the slot and then sets the replied
      bit. */
  lemma SecureActs(r: Run, k: nat)
    requires IsRun(r) && k < |r.steps| && (r.steps[k].SecureTake? || r.steps[k].SecureAnswer? || r.steps[k].SecurePublish?)
    ensures var s, s', i := r.states[k], r.states[k + 1], r.steps[k].i;
            && i < |s.slots|
            && (r.steps[k].SecureTake? ==>
                  i in s.pend && s' == s.(pend := s.pend - {i}, secure := s.secure[i := s.slots[i].msg], phase := s'.phase))
            && (r.steps[k].SecureAnswer? ==>
                  && i in s.secure && s'.slots == s.slots[i := s.slots[i].(reply := r.steps[k].r)]
                  && s' == s.(slots := s'.slots, served := s'.served, phase := s'.phase))
            && (r.steps[k].SecurePublish? ==>
                  i in s.secure && s' == s.(replied := s.replied + {i}, secure := s.secure - {i}, phase := s'.phase))
  {
    assert Follows(r, k);
  }
}
