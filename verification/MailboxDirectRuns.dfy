/** Safety of the direct-call mailbox over whole runs. */
module MailboxDirectRuns {
  import opened SlotMask
  import opened MailboxTypes
  import opened MailboxDirect

  type Run = Trace<Sys, Step>

  predicate IsRun(r: Run) {
    && |r.states| == |r.steps| + 1
    && Initial(r.states[0])
    && (forall k: nat | k < |r.steps| :: Follows(r, k))
  }

  predicate Follows(r: Run, k: nat) {
    && k < |r.steps| && k + 1 < |r.states|
    && Enabled(r.states[k], r.steps[k])
    && r.states[k + 1] == Apply(r.states[k], r.steps[k])
  }

  /** Every state of every run satisfies the invariant. */
  lemma {:induction false} RunInv(r: Run, k: nat)
    requires IsRun(r) && k < |r.states|
    ensures Inv(r.states[k])
  {
    if k == 0 {
      InitialInv(r.states[0]);
    } else {
      RunInv(r, k - 1);
      assert Follows(r, k - 1);
      StepInv(r.states[k - 1], r.steps[k - 1]);
    }
  }

  // ---- Slots ----------------------------------------------------------------------------------

  /** A client is filling the slot or collecting its reply. */
  ghost predicate HeldByClient(s: Sys, i: nat) {
    exists t :: t in s.calls && s.calls[t].pc.i == i && !s.calls[t].pc.Waiting?
  }

  predicate MarkedWoken(s: Sys, i: nat) {
    i < |s.slots| && s.slots[i].isWoken
  }

  /** In every reachable state each slot is in exactly one phase (empty, held by a client, pending, at the
      secure core, replied, captured by the interrupt handler, or woken), and no mask names anything but a
      slot of the queue. */
  lemma SlotInOnePhase(r: Run, k: nat, i: nat)
    requires IsRun(r) && k < |r.states|
    ensures var s := r.states[k];
            One(i in s.empty) + One(HeldByClient(s, i)) + One(i in s.pend) + One(i in s.secure) + One(i in s.replied)
            + One(i in IsrLeft(s)) + One(MarkedWoken(s, i)) == One(i < |s.slots|)
  {
    RunInv(r, k);
    var s := r.states[k];
    assert i >= |s.slots| ==> i !in Below(|s.slots|);
    if i < |s.slots| {
      SlotFacts(s, i);
      assert !s.phase[i].Empty? ==> s.phase[i].t in s.calls && s.calls[s.phase[i].t].pc.i == i;
    }
    forall t | t in s.calls
      ensures s.calls[t].pc.i < |s.slots| && s.phase[s.calls[t].pc.i] != Empty && s.phase[s.calls[t].pc.i].t == t
    {
      assert CallOk(s, t);
    }
  }

  /** No slot is ever held by two calls. */
  lemma SlotIsExclusive(r: Run, k: nat, t: Ticket, u: Ticket)
    requires IsRun(r) && k < |r.states|
    requires t in r.states[k].calls && u in r.states[k].calls
    requires r.states[k].calls[t].pc.i == r.states[k].calls[u].pc.i
    ensures t == u
  {
    RunInv(r, k);
    assert CallOk(r.states[k], t) && CallOk(r.states[k], u);
  }

  /** Every call that was given a slot is either still in progress or has returned, never both. */
  lemma NothingLost(r: Run, k: nat, t: Ticket)
    requires IsRun(r) && k < |r.states|
    ensures var s := r.states[k];
            One(t in s.calls) + One(t in s.returned) == One(t < s.next)
  {
    RunInv(r, k);
    var s := r.states[k];
    assert t in s.calls ==> CallOk(s, t);
    assert t in s.returned ==> ReturnOk(s, t);
  }

  // ---- Replies ----------------------------------------------------------------------------------

  /** Step `j` claims a slot for the call with ticket `t`. */
  predicate Submits(r: Run, j: nat, t: Ticket) {
    && j < |r.steps| && j < |r.states|
    && r.steps[j].ClientAcquire? && r.states[j].next == t
    && Scan(r.states[j].empty, |r.states[j].slots|, 0) < |r.states[j].slots|
  }

  /** At step `j` the secure core answers the slot serving the call with ticket `t`. */
  predicate Answers(r: Run, j: nat, t: Ticket) {
    && j < |r.steps| && j < |r.states|
    && r.steps[j].SecureAnswer?
    && r.steps[j].i < |r.states[j].phase|
    && r.states[j].phase[r.steps[j].i] == AtSecure(t)
    && r.steps[j].i in r.states[j].secure
  }

  lemma {:induction false} SubmissionOf(r: Run, k: nat, t: Ticket) returns (j: nat)
    requires IsRun(r) && k < |r.states| && t in r.states[k].sent
    ensures j < k && Submits(r, j, t) && r.states[k].sent[t] == r.steps[j].msg
  {
    assert k > 0;
    assert Follows(r, k - 1);
    StepSent(r.states[k - 1], r.steps[k - 1]);
    if Submits(r, k - 1, t) {
      j := k - 1;
    } else {
      j := SubmissionOf(r, k - 1, t);
    }
  }

  lemma {:induction false} AnswerOf(r: Run, k: nat, t: Ticket) returns (j: nat)
    requires IsRun(r) && k < |r.states| && t in r.states[k].served
    ensures j < k && Answers(r, j, t)
    ensures r.states[k].served[t] == Served(r.states[j].secure[r.steps[j].i], r.steps[j].r)
  {
    assert k > 0;
    assert Follows(r, k - 1);
    StepServed(r.states[k - 1], r.steps[k - 1]);
    if Answers(r, k - 1, t) {
      j := k - 1;
    } else {
      j := AnswerOf(r, k - 1, t);
    }
  }

  /** Only claiming a slot submits a message. */
  lemma StepSent(s: Sys, step: Step)
    requires Enabled(s, step)
    ensures step.ClientAcquire? || Apply(s, step).sent == s.sent
  {
  }

  /** Only the secure core answers. */
  lemma StepServed(s: Sys, step: Step)
    requires Enabled(s, step)
    ensures step.SecureAnswer? || Apply(s, step).served == s.served
  {
  }

  /** Once answered, a call stays answered. */
  lemma {:induction false} ServedStays(r: Run, j: nat, k: nat, t: Ticket)
    requires IsRun(r) && j <= k < |r.states| && t in r.states[j].served
    ensures t in r.states[k].served
    decreases k
  {
    if j < k {
      ServedStays(r, j, k - 1, t);
      assert Follows(r, k - 1);
      StepServed(r.states[k - 1], r.steps[k - 1]);
    }
  }

  /** The secure core answers a call at most once. */
  lemma AnsweredOnce(r: Run, j: nat, k: nat, t: Ticket)
    requires IsRun(r) && Answers(r, j, t) && Answers(r, k, t)
    ensures j == k
  {
    if j != k {
      var a, b := if j < k then j else k, if j < k then k else j;
      assert Follows(r, a);
      ServedStays(r, a + 1, b, t);
      RunInv(r, b);
      SlotFacts(r.states[b], r.steps[b].i);
    }
  }

  /** A client call that returns success holds exactly the reply the secure core computed, once, for the
      message this call put in its slot. */
  lemma OwnReply(r: Run, k: nat, t: Ticket) returns (j: nat, m: nat)
    requires IsRun(r) && k < |r.steps| && r.steps[k] == ClientRelease(t)
    ensures Submits(r, j, t) && Answers(r, m, t) && j < k && m < k
    ensures r.states[m].secure[r.steps[m].i] == r.steps[j].msg
    ensures t in r.states[k + 1].returned && r.states[k + 1].returned[t] == r.steps[m].r
    ensures forall m' | Answers(r, m', t) :: m' == m
  {
    RunInv(r, k);
    RunInv(r, k + 1);
    assert Follows(r, k);
    CallFacts(r.states[k], t);
    assert ReturnOk(r.states[k + 1], t);
    j := SubmissionOf(r, k, t);
    m := AnswerOf(r, k, t);
    forall m' | Answers(r, m', t)
      ensures m' == m
    {
      AnsweredOnce(r, m', m, t);
    }
  }
}
