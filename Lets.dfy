/**
 * The inlet end of a pipe, Pipes/Pipes/Models/Lets/Inlet.cs.
 *
 * An inlet keeps the senders that could not hand their message over at once,
 * oldest first, and may be connected to one outlet.  Each region the source
 * runs under the inlet's lock is one method here; the blocking wait of a
 * queued sender is not modelled, only how its outcome is resolved.
 */
module Lets {
  import opened Wrappers

  /** The identity of an outlet an inlet can be connected to. */
  datatype OutletRef = OutletRef(id: nat)

  /** The identity of an inlet, as passed to a pipe's probes. */
  datatype InletRef = InletRef(id: nat)

  /** The exceptions a send can end with. */
  datatype Error = InvalidOperation | ThreadInterrupted | Timeout

  /** How the wait on a sender's semaphore ended. */
  datatype WaitOutcome = Released | Expired | Interrupt

  /** The result of `Send`: thrown, handed to the offered receiver, or queued and waiting. */
  datatype SendResult<T, R> = Rejected(error: Error) | Delivered(receiver: R) | Queued(sender: WaitingSender<T>)

  /** What an inlet's `FindSender` hands out: the connected pipe's sender, or "serve my oldest waiting sender". */
  datatype InletSender<S> = Delegated(sender: S) | ServeHead

  /** Where `x` first occurs in `s`. */
  function FirstIndex<X(==)>(s: seq<X>, x: X): (i: nat)
    requires x in s
    ensures i < |s| && s[i] == x && x !in s[..i]
  {
    if s[0] == x then 0
    else
      var i := FirstIndex(s[1..], x) + 1;
      assert s[..i] == [s[0]] + s[1..][..i - 1];
      i
  }

  /** The list operation `IList.Remove`: drop the first occurrence of `x`, if any. */
  function Remove<X(==)>(s: seq<X>, x: X): (r: seq<X>)
    ensures x !in s ==> r == s
    ensures x in s ==> |r| == |s| - 1 && multiset(r) == multiset(s) - multiset{x}
    // the first occurrence goes, and the elements around it keep their order
    ensures x in s ==> r == s[..FirstIndex(s, x)] + s[FirstIndex(s, x) + 1..]
    ensures forall y :: y in r ==> y in s
    ensures Distinct(s) ==> Distinct(r) && x !in r
  {
    if x !in s then s
    else
      var i := FirstIndex(s, x);
      assert s == s[..i] + [x] + s[i + 1..];
      DropKeepsDistinct(s, i);
      s[..i] + s[i + 1..]
  }

  lemma DropKeepsDistinct<X>(s: seq<X>, i: nat)
    requires i < |s|
    ensures forall y :: y in s[..i] + s[i + 1..] ==> y in s
    ensures Distinct(s) ==> Distinct(s[..i] + s[i + 1..]) && s[i] !in s[..i] + s[i + 1..]
  {
    var r := s[..i] + s[i + 1..];
    assert forall k :: 0 <= k < |r| ==> r[k] == if k < i then s[k] else s[k + 1];
  }

  ghost predicate Distinct<X>(s: seq<X>) {
    forall i, j :: 0 <= i < j < |s| ==> s[i] != s[j]
  }

  /** The messages of a queue of waiting senders, oldest first. */
  function Messages<T>(senders: seq<WaitingSender<T>>): (r: seq<T>)
    ensures |r| == |senders|
    ensures forall i :: 0 <= i < |senders| ==> r[i] == senders[i].message
  {
    seq(|senders|, i requires 0 <= i < |senders| => senders[i].message)
  }

  /** A thread parked on a send; `messageSent` is set once, by whoever consumes the message. */
  class WaitingSender<T> {
    const message: T
    var messageSent: bool

    constructor (message: T)
      ensures this.message == message && !messageSent
    {
      this.message := message;
      messageSent := false;
    }

    method RecordMessageSent()
      modifies this
      ensures messageSent
    {
      messageSent := true;
    }
  }

  class Inlet<T> {
    /** `ConnectedOutlet`; `None` is the source's null. */
    var connectedOutlet: Option<OutletRef>
    /** `waitingSenders`, index 0 served first. */
    var waiting: seq<WaitingSender<T>>

    /** Every queued sender is queued once and none of them has been consumed yet. */
    ghost predicate Valid()
      reads this, waiting
    {
      Distinct(waiting) && forall w :: w in waiting ==> !w.messageSent
    }

    constructor ()
      ensures Valid() && waiting == [] && connectedOutlet == None
    {
      waiting := [];
      connectedOutlet := None;
    }

    /** `HasWaitingSender`; `Send` queues behind the waiting senders while it holds. */
    predicate HasWaitingSender(): (r: bool)
      reads this
      // an unconnected inlet offers its queue as the sender exactly when somebody waits
      ensures connectedOutlet == None ==> (r <==> FindSender(Option<()>.None) == Some(ServeHead))
      // an inlet with waiting senders cannot be connected
      ensures r ==> !ReadyToConnect()
    {
      waiting != []
    }

    /** `ReadyToConnect`; `ConnectTo` refuses the connection unless it holds. */
    predicate ReadyToConnect(): (r: bool)
      reads this
      // an inlet may be connected exactly when it is unconnected and has no sender to offer
      ensures r <==> connectedOutlet == None && FindSender(Option<()>.None) == None
    {
      waiting == [] && connectedOutlet == None
    }

    /**
     * The locked part of `Send`.  `offer` is what the owning pipe's
     * `FindReceiver` offers; the source asks for it only when nobody is queued,
     * which is the same thing since a probe has no effect.  A `Delivered`
     * result means the caller invokes that receiver with `message`; a `Queued`
     * one means the caller goes on to wait on the returned sender.
     */
    method Send<R>(message: T, offer: Option<R>) returns (r: SendResult<T, R>)
      requires Valid()
      modifies this
      ensures Valid() && connectedOutlet == old(connectedOutlet)
      // a connected inlet refuses direct sends and keeps its queue
      ensures old(connectedOutlet).Some? ==> r == Rejected(InvalidOperation) && waiting == old(waiting)
      // nobody queued and a receiver offered: hand over directly, queue nothing
      ensures old(connectedOutlet) == None && old(waiting) == [] && offer.Some? ==>
                r == Delivered(offer.value) && waiting == old(waiting)
      // otherwise the new sender joins the tail, behind every sender already queued
      ensures old(connectedOutlet) == None && (old(waiting) != [] || offer == None) ==>
                r.Queued? && fresh(r.sender) && r.sender.message == message && !r.sender.messageSent &&
                waiting == old(waiting) + [r.sender]
    {
      if connectedOutlet.Some? {
        return Rejected(InvalidOperation);
      }
      if !HasWaitingSender() && offer.Some? {
        return Delivered(offer.value);
      }
      var sender := new WaitingSender(message);
      waiting := waiting + [sender];
      r := Queued(sender);
    }

    /** The callback `UseWaitingSender`: serve the oldest waiting sender and mark it sent. */
    method UseWaitingSender() returns (message: T)
      requires Valid() && waiting != []
      modifies this, waiting[0]
      ensures Valid() && connectedOutlet == old(connectedOutlet)
      ensures message == old(waiting[0]).message && old(waiting[0]).messageSent
      ensures waiting == old(waiting)[1..]
    {
      var head := waiting[0];
      waiting := Remove(waiting, head);
      head.RecordMessageSent();
      message := head.message;
    }

    function FindSender<S>(connectedPipeSender: Option<S>): (r: Option<InletSender<S>>)
      reads this
      // a connected inlet delegates to the pipe behind its outlet
      ensures connectedOutlet.Some? ==> (r.Some? <==> connectedPipeSender.Some?)
      ensures connectedOutlet.Some? && connectedPipeSender.Some? ==> r == Some(Delegated(connectedPipeSender.value))
      // an unconnected inlet serves its queue, and only when somebody waits
      ensures connectedOutlet == None ==> (r == Some(ServeHead) <==> waiting != []) && (r == None <==> waiting == [])
    {
      if connectedOutlet.Some? then
        match connectedPipeSender
        case None => None
        case Some(s) => Some(Delegated(s))
      else if waiting != [] then Some(ServeHead)
      else None
    }

    /**
     * Connecting, as far as this inlet decides it: the connection is refused
     * unless `ReadyToConnect` holds, and is recorded otherwise.
     */
    method ConnectTo(outlet: OutletRef) returns (r: Outcome<Error>)
      requires Valid()
      modifies this
      ensures Valid() && waiting == old(waiting)
      ensures r == Pass <==> old(waiting) == [] && old(connectedOutlet) == None
      ensures r == Pass ==> connectedOutlet == Some(outlet)
      ensures r != Pass ==> r == Fail(InvalidOperation) && connectedOutlet == old(connectedOutlet)
    {
      if !ReadyToConnect() {
        return Fail(InvalidOperation);
      }
      connectedOutlet := Some(outlet);
      r := Pass;
    }

    /**
     * `WaitToSendMessage` as written: resolve the end of a queued sender's
     * wait under the lock.  `failure` is the exception the caller passed for a
     * wait that ends without the semaphore.
     */
    method ResolveWaitAsWritten(sender: WaitingSender<T>, outcome: WaitOutcome, failure: Error) returns (r: Outcome<Error>)
      requires Valid()
      modifies this
      ensures Valid() && connectedOutlet == old(connectedOutlet)
      ensures outcome == Released ==> r == Pass && waiting == old(waiting)
      // a wait that ran out reports failure only when nobody took the message, and then withdraws it
      ensures outcome == Expired && sender.messageSent ==> r == Pass && waiting == old(waiting)
      ensures outcome == Expired && !sender.messageSent ==> r == Fail(failure) && waiting == Remove(old(waiting), sender)
      // an interrupted wait always rethrows; it withdraws the sender only if not yet consumed
      ensures outcome == Interrupt ==> r == Fail(ThreadInterrupted)
      ensures outcome == Interrupt ==> waiting == if sender.messageSent then old(waiting) else Remove(old(waiting), sender)
    {
      match outcome
      case Released =>
        r := Pass;
      case Expired =>
        if !sender.messageSent {
          waiting := Remove(waiting, sender);
          // the failure thrown here is caught by the catch block, which removes again and rethrows
          if !sender.messageSent {
            waiting := Remove(waiting, sender);
          }
          r := Fail(failure);
        } else {
          r := Pass;
        }
      case Interrupt =>
        if !sender.messageSent {
          waiting := Remove(waiting, sender);
        }
        r := Fail(ThreadInterrupted);
    }

    /**
     * `WaitToSendMessage` with the race resolved in favour of the message in
     * every case: a wait that ends in any way reports success exactly when the
     * message was consumed.  The semaphore is released only after the sender
     * is marked sent, hence the precondition on `Released`.
     */
    method ResolveWait(sender: WaitingSender<T>, outcome: WaitOutcome, failure: Error) returns (r: Outcome<Error>)
      requires Valid()
      requires outcome == Released ==> sender.messageSent
      modifies this
      ensures Valid() && connectedOutlet == old(connectedOutlet)
      // no message lost, none reported lost: success exactly when consumed
      ensures r == Pass <==> sender.messageSent
      // a consumed sender is never touched again; one not consumed is withdrawn
      ensures sender.messageSent ==> waiting == old(waiting)
      ensures !sender.messageSent ==> waiting == Remove(old(waiting), sender) && sender !in waiting
      ensures r != Pass ==> r == Fail(if outcome == Interrupt then ThreadInterrupted else failure)
    {
      if sender.messageSent {
        r := Pass;
      } else {
        waiting := Remove(waiting, sender);
        r := Fail(if outcome == Interrupt then ThreadInterrupted else failure);
      }
    }
  }

  /**
   * The interrupt race of the wait as written: a sender queued on an
   * unconnected inlet is served by a pull, so its message is delivered, and
   * its thread is then interrupted before it leaves the wait.  The send
   * reports failure for a message that was delivered.
   */
  method InterruptAfterDeliveryAsWritten() returns (delivered: int, consumed: bool, r: Outcome<Error>)
    ensures delivered == 7 && consumed
    ensures r == Fail(ThreadInterrupted)
  {
    var inlet := new Inlet<int>();
    var noReceiver: Option<int> := None;
    var sent := inlet.Send(7, noReceiver);
    var sender := sent.sender;
    delivered := inlet.UseWaitingSender();
    consumed := sender.messageSent;
    r := inlet.ResolveWaitAsWritten(sender, Interrupt, ThreadInterrupted);
  }

  /** The same race resolved as the timeout path resolves it: the delivered message counts as sent. */
  method InterruptAfterDelivery() returns (delivered: int, consumed: bool, r: Outcome<Error>)
    ensures delivered == 7 && consumed
    ensures r == Pass
  {
    var inlet := new Inlet<int>();
    var noReceiver: Option<int> := None;
    var sent := inlet.Send(7, noReceiver);
    var sender := sent.sender;
    delivered := inlet.UseWaitingSender();
    consumed := sender.messageSent;
    r := inlet.ResolveWait(sender, Interrupt, ThreadInterrupted);
  }
}
