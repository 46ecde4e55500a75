/**
 * The bounded FIFO pipe of Pipes/Pipes/Models/Pipes/CapacityPipe.cs.
 *
 * The pipe keeps the messages it has accepted in a queue of at most
 * `Capacity` messages.  The two probes return callbacks in the source; here
 * they return a tag saying which callback would be handed out, and the
 * callbacks themselves are the methods `Accept` (store a message) and
 * `InvokeSender` (dequeue the oldest message and refill from upstream).
 */
module CapacityPipes {
  import opened Wrappers

  /** What `FindReceiver` hands out: the downstream receiver, or "store in my buffer". */
  datatype Receiver<R> = Forward(downstream: R) | Store

  /** What `FindSender` hands out: "dequeue from my buffer", or the upstream sender itself. */
  datatype Sender<S> = TakeStored | PassThrough(upstream: S)

  /** The buffer invariant: never more than `capacity` messages, and nothing at all when `capacity <= 0`. */
  predicate Fits<T>(stored: seq<T>, capacity: int) {
    stored == [] || |stored| <= capacity
  }

  /**
   * The branch choice of `FindReceiver` on a buffer holding `count` messages.
   * `downstream` is what the pipe's outlet offers; the source asks for it only
   * when the buffer is empty, which is the same thing since a probe has no effect.
   */
  function ReceiverChoice<R>(count: nat, capacity: int, downstream: Option<R>): (r: Option<Receiver<R>>)
    // a buffer receiver is offered only when there is room, so occupancy never exceeds capacity
    ensures r == Some(Store) ==> count < capacity
    // while messages are buffered the probe never bypasses them
    ensures count > 0 ==> (r == Some(Store) <==> count < capacity) && (r == None <==> count >= capacity)
    // an empty buffer prefers the downstream receiver
    ensures count == 0 && downstream.Some? ==> r == Some(Forward(downstream.value))
    // an empty buffer without a downstream receiver offers itself exactly when its capacity is positive
    ensures count == 0 && downstream.None? ==> (r == Some(Store) <==> capacity > 0) && (r == None <==> capacity <= 0)
    // whatever is forwarded is the downstream receiver
    ensures r.Some? && r.value.Forward? ==> count == 0 && downstream == Some(r.value.downstream)
  {
    if count > 0 then
      if count < capacity then Some(Store) else None
    else if downstream.Some? then
      Some(Forward(downstream.value))
    else if count < capacity then
      Some(Store)
    else
      None
  }

  /**
   * The branch choice of `FindSender` on a buffer holding `count` messages;
   * `upstream` is what the pipe's inlet offers.
   */
  function SenderChoice<S>(count: nat, capacity: int, upstream: Option<S>): (r: Option<Sender<S>>)
    // a non-empty buffer always serves from itself, and only a non-empty one does
    ensures r == Some(TakeStored) <==> count > 0
    // an empty buffer with positive capacity never passes an upstream sender through
    ensures count == 0 && capacity > 0 ==> r == None
    // an empty pass-through pipe hands out exactly the upstream sender
    ensures count == 0 && capacity <= 0 ==> (r.Some? <==> upstream.Some?)
    ensures count == 0 && capacity <= 0 && upstream.Some? ==> r == Some(PassThrough(upstream.value))
  {
    if count > 0 then Some(TakeStored)
    else if capacity > 0 then None
    else match upstream
      case None => None
      case Some(s) => Some(PassThrough(s))
  }

  /** The refill test of the sender callback, made after the dequeue. */
  predicate RefillDue(countAfterDequeue: nat, capacity: int) {
    countAfterDequeue == capacity - 1
  }

  /**
   * A pipe of capacity zero (or less) is pure pass-through: whenever its
   * invariant holds its buffer is empty, its receiver probe forwards the
   * downstream receiver and its sender probe forwards the upstream sender.
   */
  lemma PassThroughWhenNoCapacity<T, R, S>(stored: seq<T>, capacity: int, downstream: Option<R>, upstream: Option<S>)
    requires capacity <= 0 && Fits(stored, capacity)
    ensures stored == []
    ensures ReceiverChoice(|stored|, capacity, downstream) == if downstream.Some? then Some(Forward(downstream.value)) else None
    ensures SenderChoice(|stored|, capacity, upstream) == if upstream.Some? then Some(PassThrough(upstream.value)) else None
  {
  }

  class CapacityPipe<T> {
    const Capacity: int
    /** The `storedMessages` queue; index 0 is the oldest message. */
    var stored: seq<T>

    ghost predicate Valid()
      reads this
    {
      Fits(stored, Capacity)
    }

    constructor (capacity: int)
      ensures Valid() && Capacity == capacity && stored == []
    {
      Capacity := capacity;
      stored := [];
    }

    /** The room test guarding the buffer receiver; `Accept` requires it. */
    predicate HasSpareCapacity(): (r: bool)
      reads this
      // room means a positive capacity, and then the pipe would store a message offered to it alone
      ensures r ==> Capacity > 0 && ReceiverChoice(|stored|, Capacity, Option<()>.None) == Some(Store)
      // a pipe keeping its invariant without room is full, or is a pass-through pipe
      ensures Valid() && !r ==> |stored| == Capacity || (stored == [] && Capacity <= 0)
    {
      |stored| < Capacity
    }

    /** `FindReceiver`; `downstream` is what the outlet's `FindReceiver` offers. */
    function FindReceiver<R>(downstream: Option<R>): (r: Option<Receiver<R>>)
      reads this
      // the pipe offers its own buffer only when it has room
      ensures r == Some(Store) ==> HasSpareCapacity()
      // buffered messages are never bypassed: a non-empty pipe offers itself exactly when it has room
      ensures stored != [] ==> (r == Some(Store) <==> HasSpareCapacity()) && (r == None <==> !HasSpareCapacity())
      // an empty pipe prefers the receiver downstream, and otherwise offers itself when it has room
      ensures stored == [] && downstream.Some? ==> r == Some(Forward(downstream.value))
      ensures stored == [] && downstream.None? ==> (r == Some(Store) <==> HasSpareCapacity()) && (r == None <==> !HasSpareCapacity())
    {
      ReceiverChoice(|stored|, Capacity, downstream)
    }

    /** `FindSender`; `upstream` is what the inlet's `FindSender` offers. */
    function FindSender<S>(upstream: Option<S>): (r: Option<Sender<S>>)
      reads this
      // the pipe serves from its buffer exactly when it holds a message
      ensures r == Some(TakeStored) <==> stored != []
      // an empty pipe with capacity has nothing to offer, an empty pass-through pipe offers the upstream sender
      ensures stored == [] && Capacity > 0 ==> r == None
      ensures stored == [] && Capacity <= 0 ==> r == if upstream.Some? then Some(PassThrough(upstream.value)) else None
    {
      SenderChoice(|stored|, Capacity, upstream)
    }

    /** The receiver callback `message => storedMessages.Enqueue(message)`, handed out only when there is room. */
    method Accept(message: T)
      requires Valid() && HasSpareCapacity()
      modifies this
      ensures Valid()
      ensures stored == old(stored) + [message]
    {
      stored := stored + [message];
    }

    /** The first half of the sender callback: take the oldest message. */
    method Dequeue() returns (message: T)
      requires Valid() && stored != []
      modifies this
      ensures Valid()
      ensures message == old(stored)[0] && stored == old(stored)[1..]
    {
      message := stored[0];
      stored := stored[1..];
    }

    /** The refill test of the sender callback, made after the dequeue; `InvokeSender` refills under it. */
    predicate NeedsRefill(): (r: bool)
      reads this
      // a refill is due only when exactly one slot is free, so accepting one message fills the pipe
      ensures r ==> HasSpareCapacity() && |stored| + 1 == Capacity
    {
      RefillDue(|stored|, Capacity)
    }

    /**
     * The sender callback handed out by `FindSender` on a non-empty buffer.
     * `upstream` is the message the inlet's sender yields, if the inlet has
     * one; `refilled` says whether that sender was used.
     */
    method InvokeSender(upstream: Option<T>) returns (message: T, refilled: bool)
      requires Valid() && stored != []
      modifies this
      ensures Valid()
      // FIFO: the oldest message leaves, the others keep their order
      ensures message == old(stored)[0]
      // one upstream message is pulled exactly when the buffer was full before the dequeue
      ensures refilled <==> |old(stored)| == Capacity && upstream.Some?
      ensures refilled ==> stored == old(stored)[1..] + [upstream.value] && |stored| == Capacity
      ensures !refilled ==> stored == old(stored)[1..]
    {
      message := Dequeue();
      refilled := false;
      if NeedsRefill() {
        match upstream
        case None =>
        case Some(next) =>
          Accept(next);
          refilled := true;
      }
    }
  }
}
