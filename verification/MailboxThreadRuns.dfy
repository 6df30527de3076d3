/** Safety of the threaded mailbox over whole runs. */
module MailboxThreadRuns {
  import opened SlotMask
  import opened MailboxTypes
  import opened MailboxThread

  type Run = Trace<Sys, Step>

  predicate IsRun(r: Run) {
    && |r.states| == |r.steps| + 1
    && Initial(r.states[0])
    && (forall k: nat | k < |r.steps| :: Follows(r, k))
  }

  predicate Follows(r: Run, k: nat) {
    && k < |r.steps| && k + 1 < |r.states|
    && Enabled(r.states[k], r.steps[k])
    && r.states[k + 1] == Apply(r.states[k], r.steps[k])
  }

  /** Every state of every run satisfies the invariant. */
  lemma {:induction false} RunInv(r: Run, k: nat)
    requires IsRun(r) && k < |r.states|
    ensures Inv(r.states[k])
  {
    if k == 0 {
      InitialInv(r.states[0]);
    } else {
      RunInv(r, k - 1);
      assert Follows(r, k - 1);
      StepInv(r.states[k - 1], r.steps[k - 1]);
    }
  }

  // ---- Slots ----------------------------------------------------------------------------------

  function Held(s: Sys): set<nat> {
    if RunnerHolds(s) then {s.runner.idx} else {}
  }

  /** In every reachable state each slot is in exactly one phase (empty, being filled by the runner,
      pending, at the secure core, replied, captured by the interrupt handler, or woken), and no mask
      names anything but a slot of the queue. */
  lemma SlotInOnePhase(r: Run, k: nat, i: nat)
    requires IsRun(r) && k < |r.states|
    ensures var s := r.states[k];
            One(i in s.empty) + One(i in Held(s)) + One(i in s.pend) + One(i in s.secure) + One(i in s.replied)
            + One(i in IsrLeft(s)) + One(i in IsrDone(s)) == One(i < |s.slots|)
  {
    RunInv(r, k);
    var s := r.states[k];
    assert i < |s.slots| ==> SlotMasks(s, i);
    assert i >= |s.slots| ==> i !in Below(|s.slots|);
  }

  /** The runner alone clears bits of the empty mask. */
  lemma OnlyRunnerClears(r: Run, k: nat)
    requires IsRun(r) && k < |r.steps| && !r.steps[k].RunnerAcquire?
    ensures r.states[k].empty <= r.states[k + 1].empty
  {
    assert Follows(r, k);
  }

  /** No request accepted by the message queue is dropped: the null-pointer guard never fires, and the
      scan of the mask finds a slot that is still empty, so the full-queue return is never taken. */
  lemma NothingDropped(r: Run, k: nat)
    requires IsRun(r) && k < |r.steps|
    ensures r.steps[k].RunnerReceive? ==>
              r.states[k].mq != [] && r.states[k + 1].runner == Received(r.states[k].mq[0].t, r.states[k].mq[0].req)
    ensures r.steps[k].RunnerAcquire? ==>
              && r.states[k + 1].runner.Holds?
              && r.states[k + 1].runner.idx in r.states[k].empty
              && r.states[k].runner.Sees? && r.states[k + 1].runner.req == r.states[k].runner.req
  {
    RunInv(r, k);
    assert Follows(r, k);
    var s := r.states[k];
    if r.steps[k].RunnerReceive? {
      assert QueueItem(s, 0);
      CallFacts(s, s.mq[0].t);
    } else if r.steps[k].RunnerAcquire? {
      ScanFinds(s);
    }
  }

  /** Every request ever accepted belongs to exactly one of a call still waiting and a call that has
      returned. */
  lemma NothingLost(r: Run, k: nat, t: Ticket)
    requires IsRun(r) && k < |r.states|
    ensures var s := r.states[k];
            One(t in s.calls) + One(t in s.returned) == One(t < s.next)
  {
    RunInv(r, k);
    var s := r.states[k];
    assert t in s.calls ==> CallOk(s, t);
    assert t in s.returned ==> ReturnOk(s, t);
  }

  // ---- Pointers ---------------------------------------------------------------------------------

  /** A call still inside its wait loop: its frame exists and its flag has not been raised. */
  predicate StillWaiting(s: Sys, t: Ticket) {
    && t in s.calls
    && s.calls[t].req.wokenFlag in s.flags
    && !s.flags[s.calls[t].req.wokenFlag]
  }

  /** The runner reads parameters only from a call that is still waiting, and what it stores in the slot
      is what that call submitted. */
  lemma RunnerReadsLiveParams(r: Run, k: nat)
    requires IsRun(r) && k < |r.steps| && r.steps[k].RunnerFillMsg?
    ensures var s, s' := r.states[k], r.states[k + 1];
            && s.runner.Holds? && StillWaiting(s, s.runner.t)
            && s.runner.req.paramsPtr == s.calls[s.runner.t].req.paramsPtr
            && s.runner.t in s.sent
            && s.runner.idx < |s'.slots| && s'.slots[s.runner.idx].msg == s.sent[s.runner.t]
  {
    RunInv(r, k);
    assert Follows(r, k);
    RunnerFacts(r.states[k]);
  }

  /** The interrupt handler writes replies only into the buffer of a call that is still waiting. */
  lemma IsrWritesLiveReply(r: Run, k: nat)
    requires IsRun(r) && k < |r.steps| && r.steps[k].IsrCopy?
    ensures var s := r.states[k];
            s.isr.On? &&
            exists t :: StillWaiting(s, t) && s.calls[t].at == InSlot(Current(s))
                        && Current(s) < |s.slots| && s.slots[Current(s)].replyPtr == s.calls[t].req.reply
  {
    RunInv(r, k);
    assert Follows(r, k);
    var s := r.states[k];
    CurrentSlot(s);
    assert StillWaiting(s, s.phase[Current(s)].t);
  }

  /** The interrupt handler raises only the flag of a call that is still waiting, after the reply the
      secure core computed has been stored in that call's buffer and while the slot is not yet empty. */
  lemma IsrRaisesLiveFlag(r: Run, k: nat)
    requires IsRun(r) && k < |r.steps| && r.steps[k].IsrWake?
    ensures var s, s' := r.states[k], r.states[k + 1];
            s.isr.On? &&
            exists t ::
              && StillWaiting(s, t) && t in s.served
              && Current(s) < |s.slots| && s.slots[Current(s)].wokenPtr == s.calls[t].req.wokenFlag
              && s.calls[t].req.reply in s.replies && s.replies[s.calls[t].req.reply] == s.served[t].reply
              && Current(s) !in s.empty && Current(s) !in s'.empty
  {
    RunInv(r, k);
    assert Follows(r, k);
    var s := r.states[k];
    CurrentSlot(s);
    assert StillWaiting(s, s.phase[Current(s)].t);
  }

  // ---- Replies ----------------------------------------------------------------------------------

  /** Step `j` is the submission of the call with ticket `t`. */
  predicate Submits(r: Run, j: nat, t: Ticket) {
    && j < |r.steps| && j < |r.states|
    && r.steps[j].ClientCall? && Accepted(r.steps[j]) && r.states[j].next == t
  }

  function Submitted(r: Run, j: nat): Msg
    requires j < |r.steps| && r.steps[j].ClientCall?
  {
    Msg(r.steps[j].req.callType, r.steps[j].p, r.steps[j].req.clientId)
  }

  /** At step `j` the secure core answers the slot serving the call with ticket `t`. */
  predicate Answers(r: Run, j: nat, t: Ticket) {
    && j < |r.steps| && j < |r.states|
    && r.steps[j].SecureAnswer?
    && r.steps[j].i < |r.states[j].phase|
    && r.states[j].phase[r.steps[j].i] == AtSecure(t)
    && r.steps[j].i in r.states[j].secure
  }

  lemma {:induction false} SubmissionOf(r: Run, k: nat, t: Ticket) returns (j: nat)
    requires IsRun(r) && k < |r.states| && t in r.states[k].sent
    ensures j < k && Submits(r, j, t) && r.states[k].sent[t] == Submitted(r, j)
  {
    assert k > 0;
    assert Follows(r, k - 1);
    if Submits(r, k - 1, t) {
      j := k - 1;
    } else {
      j := SubmissionOf(r, k - 1, t);
    }
  }

  lemma {:induction false} AnswerOf(r: Run, k: nat, t: Ticket) returns (j: nat)
    requires IsRun(r) && k < |r.states| && t in r.states[k].served
    ensures j < k && Answers(r, j, t)
    ensures r.states[k].served[t] == Served(r.states[j].secure[r.steps[j].i], r.steps[j].r)
  {
    assert k > 0;
    assert Follows(r, k - 1);
    if Answers(r, k - 1, t) {
      j := k - 1;
    } else {
      j := AnswerOf(r, k - 1, t);
    }
  }

  /** Once answered, a call stays answered. */
  lemma {:induction false} ServedStays(r: Run, j: nat, k: nat, t: Ticket)
    requires IsRun(r) && j <= k < |r.states| && t in r.states[j].served
    ensures t in r.states[k].served
    decreases k
  {
    if j < k {
      ServedStays(r, j, k - 1, t);
      assert Follows(r, k - 1);
      ServedGrows(r.states[k - 1], r.steps[k - 1], t);
    }
  }

  lemma ServedGrows(s: Sys, step: Step, t: Ticket)
    requires Enabled(s, step) && t in s.served
    ensures t in Apply(s, step).served
  {
    if step.SecureAnswer? {
    } else {
    }
  }

  /** The secure core answers a call at most once. */
  lemma AnsweredOnce(r: Run, j: nat, k: nat, t: Ticket)
    requires IsRun(r) && Answers(r, j, t) && Answers(r, k, t)
    ensures j == k
  {
    if j != k {
      var a, b := if j < k then j else k, if j < k then k else j;
      assert Follows(r, a);
      AnswerServes(r.states[a], r.steps[a], t);
      ServedStays(r, a + 1, b, t);
      RunInv(r, b);
      NotYetServed(r.states[b], r.steps[b].i);
    }
  }

  /** What the secure core is about to answer has not been answered. */
  lemma NotYetServed(s: Sys, i: nat)
    requires Inv(s) && i < |s.phase| && s.phase[i].AtSecure?
    ensures s.phase[i].t !in s.served
  {
    SlotFacts(s, i);
  }

  lemma AnswerServes(s: Sys, step: Step, t: Ticket)
    requires Enabled(s, step) && step.SecureAnswer? && s.phase[step.i] == AtSecure(t)
    ensures t in Apply(s, step).served
  {
  }

  /** A client call that returns success holds exactly the reply the secure core computed for the call
      type, parameters and client id that this call submitted, and the secure core computed it once. */
  lemma OwnReply(r: Run, k: nat, t: Ticket) returns (j: nat, m: nat)
    requires IsRun(r) && k < |r.steps| && r.steps[k] == ClientReturn(t)
    ensures Submits(r, j, t) && Answers(r, m, t) && j < k && m < k
    ensures r.states[m].secure[r.steps[m].i] == Submitted(r, j)
    ensures t in r.states[k + 1].returned && r.states[k + 1].returned[t] == r.steps[m].r
    ensures forall m' | Answers(r, m', t) :: m' == m
  {
    RunInv(r, k);
    RunInv(r, k + 1);
    assert Follows(r, k);
    CallFacts(r.states[k], t);
    assert ReturnOk(r.states[k + 1], t);
    j := SubmissionOf(r, k, t);
    m := AnswerOf(r, k, t);
    forall m' | Answers(r, m', t)
      ensures m' == m
    {
      AnsweredOnce(r, m', m, t);
    }
  }
}
