/** Values shared by both variants of the non-secure mailbox: messages, replies and the slots of
    the queue that both cores see. */
module MailboxTypes {

  /** An address in non-secure memory; zero is the null pointer. */
  type Addr = nat
  const NULL: Addr := 0

  /** The handle of a non-secure task. */
  type Task = nat

  /** A number given to each client call when it is submitted; it identifies the call in the
      history of a run and is not part of the program's data. */
  type Ticket = nat

  datatype Params = Params(words: seq<int>)
  datatype Reply = Reply(returnVal: int, outVecLen: seq<nat>)
  datatype Msg = Msg(callType: nat, params: Params, clientId: int)

  /** What the secure core recorded for one call. */
  datatype Served = Served(msg: Msg, reply: Reply)

  /** The scan for the lowest set bit of a status mask: the first index at or above `from` whose
      bit is one, or `n` when there is none. */
  function Scan(status: set<nat>, n: nat, from: nat): (idx: nat)
    requires from <= n
    ensures from <= idx <= n
    ensures idx < n ==> idx in status
    ensures forall j: nat | from <= j < idx :: j !in status
    decreases n - from
  {
    if from == n then n else if from in status then from else Scan(status, n, from + 1)
  }

  /** A finite run of a transition system: states and the steps between them. */
  datatype Trace<S, T> = Trace(states: seq<S>, steps: seq<T>)

  /** 1 for true, to count which of several conditions hold. */
  function One(b: bool): nat {
    if b then 1 else 0
  }

  /** The lowest element of a set of slots. */
  predicate Lowest(left: set<nat>, i: nat) {
    i in left && forall j: nat | j < i :: j !in left
  }
}
