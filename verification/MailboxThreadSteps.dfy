/** What each step of the threaded mailbox does in a run, in terms of the shared data and the participants' locals
    alone. The history of a run (`phase`, `calls`) is mentioned where the step is about a call. */
module MailboxThreadSteps {
  import opened SlotMask
  import opened MailboxTypes
  import opened MailboxThread
  import opened MailboxThreadRuns

  /** A send that the queue accepts puts exactly this request at its end, and the call waits with what the client
      submitted and a flag that is down. A null pointer or a refused send leaves everything as it was. */
  lemma ClientEnters(r: Run, k: nat)
    requires IsRun(r) && k < |r.steps| && r.steps[k].ClientCall?
    ensures var s, s', req, p := r.states[k], r.states[k + 1], r.steps[k].req, r.steps[k].p;
            var t, msg := s.next, Msg(req.callType, p, req.clientId);
            if r.steps[k].accepted && req.paramsPtr != NULL && req.reply != NULL then
              && s'.mq == s.mq + [Item(t, req)]
              && s'.calls == s.calls[t := Call(req, msg, Queued(s.received + |s.mq|))]
              && s'.sent == s.sent[t := msg] && s'.next == t + 1
              && s'.params == s.params[req.paramsPtr := p] && s'.flags == s.flags[req.wokenFlag := false]
              && s' == s.(mq := s'.mq, calls := s'.calls, sent := s'.sent, next := s'.next, params := s'.params, flags := s'.flags)
            else s' == s
  {
    assert Follows(r, k);
  }

  /** A call leaves its wait loop only after its flag has been raised, and returns what its buffer holds. */
  lemma ClientLeaves(r: Run, k: nat)
    requires IsRun(r) && k < |r.steps| && r.steps[k].ClientReturn?
    ensures var s, s', t := r.states[k], r.states[k + 1], r.steps[k].t;
            && t in s.calls && s.calls[t].req.wokenFlag in s.flags && s.flags[s.calls[t].req.wokenFlag]
            && s.calls[t].req.reply in s.replies
            && s' == s.(calls := s.calls - {t}, returned := s.returned[t := s.replies[s.calls[t].req.reply]])
  {
    RunInv(r, k);
    assert Follows(r, k);
    CallFacts(r.states[k], r.steps[k].t);
  }

  /** The runner takes the first request of the queue. */
  lemma RunnerReceives(r: Run, k: nat)
    requires IsRun(r) && k < |r.steps| && r.steps[k].RunnerReceive?
    ensures var s, s' := r.states[k], r.states[k + 1];
            && s.mq != [] && s.mq[0].t in s.calls
            && s'.calls == s.calls[s.mq[0].t := s.calls[s.mq[0].t].(at := AtRunner)]
            && s' == s.(mq := s.mq[1..], received := s.received + 1, runner := Received(s.mq[0].t, s.mq[0].req), calls := s'.calls)
  {
    RunInv(r, k);
    assert Follows(r, k);
    assert QueueItem(r.states[k], 0);
    CallFacts(r.states[k], r.states[k].mq[0].t);
  }

  /** Reading the mask: the runner goes on with exactly this mask if it names a slot, and otherwise flags the
      queue full and sleeps. */
  lemma RunnerReads(r: Run, k: nat)
    requires IsRun(r) && k < |r.steps| && r.steps[k].RunnerRead?
    ensures var s, s' := r.states[k], r.states[k + 1];
            && s.runner.Received?
            && (s.empty != {} ==> s' == s.(runner := Sees(s.runner.t, s.runner.req, s.empty)))
            && (s.empty == {} ==> s' == s.(runner := Sleeping(s.runner.t, s.runner.req), isFull := true))
  {
    assert Follows(r, k);
  }

  /** Woken from that sleep, it clears the flag and reads again. */
  lemma RunnerWakes(r: Run, k: nat)
    requires IsRun(r) && k < |r.steps| && r.steps[k].RunnerWake?
    ensures var s, s' := r.states[k], r.states[k + 1];
            s.runner.Sleeping? && s' == s.(runner := Received(s.runner.t, s.runner.req), isFull := false)
  {
    assert Follows(r, k);
  }

  /** The runner claims the lowest slot of the mask it has read, and only this one leaves the empty mask. */
  lemma RunnerClaims(r: Run, k: nat)
    requires IsRun(r) && k < |r.steps| && r.steps[k].RunnerAcquire?
    ensures var s, s' := r.states[k], r.states[k + 1];
            && s.runner.Sees? && s'.runner.Holds? && s.runner.t in s.calls
            && var idx := s'.runner.idx;
            && idx in s.runner.status && (forall j: nat | j < idx :: j !in s.runner.status)
            && idx in s.empty && idx < |s.phase|
            && s'.phase == s.phase[idx := Filling(s.runner.t)]
            && s'.calls == s.calls[s.runner.t := s.calls[s.runner.t].(at := InSlot(idx))]
            && s' == s.(empty := s.empty - {idx}, runner := Holds(s.runner.t, s.runner.req, idx), phase := s'.phase, calls := s'.calls)
  {
    RunInv(r, k);
    assert Follows(r, k);
    ScanFinds(r.states[k]);
    RunnerFacts(r.states[k]);
  }

  /** The message stored in the slot is the one submitted; the other fields of the slot and all other slots are
      kept. */
  lemma RunnerFillsMessage(r: Run, k: nat)
    requires IsRun(r) && k < |r.steps| && r.steps[k].RunnerFillMsg?
    ensures var s, s' := r.states[k], r.states[k + 1];
            && s.runner.Holds? && s.runner.idx < |s.slots| && s.runner.t in s.sent
            && s'.slots == s.slots[s.runner.idx := s.slots[s.runner.idx].(msg := s.sent[s.runner.t])]
            && s' == s.(slots := s'.slots, runner := MsgFilled(s.runner.t, s.runner.req, s.runner.idx))
  {
    RunInv(r, k);
    assert Follows(r, k);
    RunnerFacts(r.states[k]);
  }

  /** Owner, reply pointer and flag pointer of the slot are those of the call it serves. */
  lemma RunnerFillsPointers(r: Run, k: nat)
    requires IsRun(r) && k < |r.steps| && r.steps[k].RunnerFillNs?
    ensures var s, s' := r.states[k], r.states[k + 1];
            && s.runner.MsgFilled? && s.runner.idx < |s.slots| && s.runner.t in s.calls
            && var idx, req := s.runner.idx, s.calls[s.runner.t].req;
            && s'.slots == s.slots[idx := Slot(s.slots[idx].msg, s.slots[idx].reply, req.owner, req.reply, req.wokenFlag)]
            && s' == s.(slots := s'.slots, runner := NsFilled(s.runner.t, s.runner.req, idx))
  {
    RunInv(r, k);
    assert Follows(r, k);
    RunnerFacts(r.states[k]);
  }

  /** The filled slot becomes pending and the runner is ready for the next request. */
  lemma RunnerPends(r: Run, k: nat)
    requires IsRun(r) && k < |r.steps| && r.steps[k].RunnerPend?
    ensures var s, s' := r.states[k], r.states[k + 1];
            && s.runner.NsFilled? && s.runner.idx < |s.phase|
            && s' == s.(pend := s.pend + {s.runner.idx}, runner := Receiving, phase := s.phase[s.runner.idx := Pending(s.runner.t)])
  {
    RunInv(r, k);
    assert Follows(r, k);
    var s, s' := r.states[k], r.states[k + 1];
    RunnerFacts(s);
    assert s'.phase == s.phase[s.runner.idx := Pending(s.runner.t)];
    assert s'.pend == s.pend + {s.runner.idx} && s'.runner == Receiving;
  }

  /** The interrupt handler takes the whole replied mask, or stops if it is zero. */
  lemma IsrCaptures(r: Run, k: nat)
    requires IsRun(r) && k < |r.steps| && r.steps[k].IsrCapture?
    ensures var s, s' := r.states[k], r.states[k + 1];
            && (s.replied == {} ==> s' == s)
            && (s.replied != {} ==> s' == s.(replied := {}, isr := On(s.replied, {}, false), phase := s'.phase))
  {
    assert Follows(r, k);
  }

  /** The reply of the lowest slot still to handle is stored through the slot's pointer. */
  lemma IsrCopies(r: Run, k: nat)
    requires IsRun(r) && k < |r.steps| && r.steps[k].IsrCopy?
    ensures var s, s' := r.states[k], r.states[k + 1];
            && s.isr.On?
            && exists i: nat ::
                 && Lowest(s.isr.left, i) && i < |s.slots| && s.slots[i].replyPtr != NULL
                 && s' == s.(replies := s.replies[s.slots[i].replyPtr := s.slots[i].reply],
                             isr := On(s.isr.left, s.isr.done, true), phase := s'.phase)
  {
    RunInv(r, k);
    assert Follows(r, k);
    var s := r.states[k];
    CurrentSlot(s);
    assert Lowest(s.isr.left, Current(s));
    assert s.slots[Current(s)].replyPtr != NULL;
  }

  /** Its flag is raised and it counts as completed; the owner to be woken is the one that made the call. */
  lemma IsrWakes(r: Run, k: nat)
    requires IsRun(r) && k < |r.steps| && r.steps[k].IsrWake?
    ensures var s, s' := r.states[k], r.states[k + 1];
            && s.isr.On?
            && exists i: nat, t ::
                 && Lowest(s.isr.left, i) && i < |s.slots| && t in s.calls && s.calls[t].at == InSlot(i)
                 && s.slots[i].owner == s.calls[t].req.owner && s.slots[i].wokenPtr == s.calls[t].req.wokenFlag
                 && s'.calls == s.calls[t := s.calls[t].(at := Done)]
                 && s' == s.(flags := s.flags[s.slots[i].wokenPtr := true],
                             isr := On(s.isr.left - {i}, s.isr.done + {i}, false), phase := s'.phase, calls := s'.calls)
  {
    RunInv(r, k);
    assert Follows(r, k);
    var s, s' := r.states[k], r.states[k + 1];
    CurrentSlot(s);
    var i := Current(s);
    var t := s.phase[i].t;
    assert Lowest(s.isr.left, i);
    assert s'.calls == s.calls[t := s.calls[t].(at := Done)];
    assert s.slots[i].owner == s.calls[t].req.owner;
  }

  /** In the end all completed slots become empty, and no others. */
  lemma IsrFinishes(r: Run, k: nat)
    requires IsRun(r) && k < |r.steps| && r.steps[k].IsrFinish?
    ensures var s, s' := r.states[k], r.states[k + 1];
            s.isr.On? && s.isr.left == {} && s' == s.(empty := s.empty + s.isr.done, isr := Off, phase := s'.phase)
  {
    assert Follows(r, k);
  }

  /** The secure core takes the message of a pending slot, stores its reply in the slot and then sets the replied
      bit. */
  lemma SecureActs(r: Run, k: nat)
    requires IsRun(r) && k < |r.steps| && (r.steps[k].SecureTake? || r.steps[k].SecureAnswer? || r.steps[k].SecurePublish?)
    ensures var s, s', i := r.states[k], r.states[k + 1], r.steps[k].i;
            && i < |s.slots|
            && (r.steps[k].SecureTake? ==>
                  i in s.pend && s' == s.(pend := s.pend - {i}, secure := s.secure[i := s.slots[i].msg], phase := s'.phase))
            && (r.steps[k].SecureAnswer? ==>
                  && i in s.secure && s'.slots == s.slots[i := s.slots[i].(reply := r.steps[k].r)]
                  && s' == s.(slots := s'.slots, served := s'.served, phase := s'.phase))
            && (r.steps[k].SecurePublish? ==>
                  i in s.secure && s' == s.(replied := s.replied + {i}, secure := s.secure - {i}, phase := s'.phase))
  {
    assert Follows(r, k);
  }
}
