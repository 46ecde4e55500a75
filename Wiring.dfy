/**
 * A line of `CapacityPipe` objects wired outlet-to-inlet, with the waiting
 * senders of the last pipe's `Inlet`, driven by the pipes' own callbacks and
 * proved to behave as the value model of module Relay.
 *
 * `pipes[0]` is the most downstream pipe; the inlet of pipe `i` is connected
 * to the outlet of pipe `i + 1`, so a connected inlet's `FindSender` is the
 * next pipe's `FindSender`, and an outlet's `FindReceiver` is the previous
 * pipe's `FindReceiver`.  `inlet` is the last pipe's inlet, not connected.
 */
module Wiring {
  import opened Wrappers
  import opened CapacityPipes
  import opened Lets
  import opened Relay

  /** The state of the line as a value. */
  function Snapshot<T>(pipes: seq<CapacityPipe<T>>, inlet: Inlet<T>): (c: Chain<T>)
    reads pipes, inlet
    ensures Shaped(c) && |c.buffers| == |pipes|
    ensures forall k :: 0 <= k < |pipes| ==> c.buffers[k] == pipes[k].stored && c.capacities[k] == pipes[k].Capacity
    ensures c.waiting == Messages(inlet.waiting)
  {
    Chain(seq(|pipes|, k requires 0 <= k < |pipes| reads pipes => pipes[k].stored),
          seq(|pipes|, k requires 0 <= k < |pipes| => pipes[k].Capacity),
          Messages(inlet.waiting))
  }

  ghost predicate Wired<T>(pipes: seq<CapacityPipe<T>>, inlet: Inlet<T>)
    reads pipes, inlet, inlet.waiting
  {
    && Distinct(pipes)
    && (forall k :: 0 <= k < |pipes| ==> pipes[k].Valid())
    && inlet.Valid()
    && inlet.connectedOutlet == None
  }

  lemma WiredIsWellFormed<T>(pipes: seq<CapacityPipe<T>>, inlet: Inlet<T>)
    requires Wired(pipes, inlet)
    ensures WellFormed(Snapshot(pipes, inlet))
  {
    var c := Snapshot(pipes, inlet);
    forall k | 0 <= k < |c.buffers| ensures Fits(c.buffers[k], c.capacities[k]) {
      assert pipes[k].Valid();
    }
  }

  /**
   * The receiver probe entering at pipe `i`, asked of the objects: each pipe's
   * own `FindReceiver`, given what its outlet offers, which is the probe of
   * the pipe below it, or the receiver beyond pipe 0.
   */
  function ProbeReceiver<T, D>(pipes: seq<CapacityPipe<T>>, inlet: Inlet<T>, i: nat, downstream: Option<D>): (r: Option<Target<D>>)
    requires i < |pipes|
    reads pipes, inlet
    ensures r == FindReceiverAt(Snapshot(pipes, inlet), i, downstream)
  {
    var below: Option<Target<D>> :=
      if i == 0 then (if downstream.Some? then Some(External(downstream.value)) else None)
      else ProbeReceiver(pipes, inlet, i - 1, downstream);
    match pipes[i].FindReceiver(below)
    case None => None
    case Some(Forward(t)) => Some(t)
    case Some(Store) => Some(Buffer(i))
  }

  /**
   * The sender probe entering at pipe `i`, asked of the objects: each pipe's
   * own `FindSender`, given what its inlet offers, which is the probe of the
   * pipe above it; the last pipe's inlet is not connected and offers to serve
   * its waiting senders.
   */
  function ProbeSender<T>(pipes: seq<CapacityPipe<T>>, inlet: Inlet<T>, i: nat): (r: Option<PullOrigin>)
    requires i <= |pipes| && inlet.connectedOutlet == None
    reads pipes, inlet
    ensures r == FindSenderAt(Snapshot(pipes, inlet), i)
    decreases |pipes| - i
  {
    if i == |pipes| then
      var offered := inlet.FindSender(Option<PullOrigin>.None);
      if offered == Some(ServeHead) then Some(FromQueue) else None
    else
      match pipes[i].FindSender(ProbeSender(pipes, inlet, i + 1))
      case None => None
      case Some(TakeStored) => Some(FromPipe(i))
      case Some(PassThrough(s)) => Some(s)
  }

  /** The buffer's own sender step on pipe `k`: its oldest message leaves, nothing else changes. */
  method DequeueAt<T>(pipes: seq<CapacityPipe<T>>, inlet: Inlet<T>, k: nat) returns (m: T)
    requires Wired(pipes, inlet) && k < |pipes| && pipes[k].stored != []
    modifies pipes[k]
    ensures Wired(pipes, inlet)
    ensures m == old(Snapshot(pipes, inlet)).buffers[k][0]
    ensures Snapshot(pipes, inlet) == old(Snapshot(pipes, inlet)).(buffers := old(Snapshot(pipes, inlet)).buffers[k := old(pipes[k].stored)[1..]])
  {
    ghost var c := Snapshot(pipes, inlet);
    m := pipes[k].Dequeue();
    assert Snapshot(pipes, inlet) == c.(buffers := c.buffers[k := c.buffers[k][1..]]);
  }

  /** The buffer receiver of pipe `k` called with `x`: it joins that buffer's tail, nothing else changes. */
  method AcceptAt<T>(pipes: seq<CapacityPipe<T>>, inlet: Inlet<T>, k: nat, x: T)
    requires Wired(pipes, inlet) && k < |pipes| && pipes[k].HasSpareCapacity()
    modifies pipes[k]
    ensures Wired(pipes, inlet)
    ensures Snapshot(pipes, inlet) == old(Snapshot(pipes, inlet)).(buffers := old(Snapshot(pipes, inlet)).buffers[k := old(pipes[k].stored) + [x]])
  {
    ghost var c := Snapshot(pipes, inlet);
    pipes[k].Accept(x);
    assert Snapshot(pipes, inlet) == c.(buffers := c.buffers[k := c.buffers[k] + [x]]);
  }

  lemma AppendStep<X>(s: seq<X>, ms: seq<X>, k: nat)
    requires k < |ms|
    ensures s + ms[..k] + [ms[k]] == s + ms[..k + 1]
  {
    assert ms[..k + 1] == ms[..k] + [ms[k]];
  }

  /** `FindSender` of pipe `i` followed by a call of the sender it hands out. */
  method PullFrom<T>(pipes: seq<CapacityPipe<T>>, i: nat, inlet: Inlet<T>) returns (m: Option<T>)
    requires Wired(pipes, inlet) && i <= |pipes|
    modifies pipes, inlet, set w | w in inlet.waiting
    ensures Wired(pipes, inlet) && forall w :: w in inlet.waiting ==> w in old(inlet.waiting)
    ensures (m, Snapshot(pipes, inlet)) == PullAt(old(Snapshot(pipes, inlet)), i)
    decreases |pipes| - i, 1
  {
    ghost var c := Snapshot(pipes, inlet);
    match ProbeSender(pipes, inlet, i)
    case None =>
      m := None;
    case Some(FromQueue) =>
      var x := inlet.UseWaitingSender();
      m := Some(x);
      assert Snapshot(pipes, inlet).waiting == c.waiting[1..];
      assert Snapshot(pipes, inlet).buffers == c.buffers;
    case Some(FromPipe(k)) =>
      var x := InvokeFrom(pipes, k, inlet);
      m := Some(x);
  }

  /** The sender callback of pipe `k`, whose inlet's sender is a pull from pipe `k + 1`. */
  method InvokeFrom<T>(pipes: seq<CapacityPipe<T>>, k: nat, inlet: Inlet<T>) returns (m: T)
    requires Wired(pipes, inlet) && k < |pipes| && pipes[k].stored != []
    modifies pipes, inlet, set w | w in inlet.waiting
    ensures Wired(pipes, inlet) && forall w :: w in inlet.waiting ==> w in old(inlet.waiting)
    ensures (m, Snapshot(pipes, inlet)) == InvokeAt(old(Snapshot(pipes, inlet)), k)
    decreases |pipes| - k, 0
  {
    ghost var c := Snapshot(pipes, inlet);
    m := DequeueAt(pipes, inlet, k);
    ghost var c1 := c.(buffers := c.buffers[k := c.buffers[k][1..]]);
    if pipes[k].NeedsRefill() {
      WiredIsWellFormed(pipes, inlet);
      PullKeepsShape(c1, k + 1);
      var up := PullFrom(pipes, k + 1, inlet);
      ghost var c2 := PullAt(c1, k + 1).1;
      assert pipes[k].stored == c2.buffers[..k + 1][k] == c1.buffers[k];
      if up.Some? {
        AcceptAt(pipes, inlet, k, up.value);
      }
    }
  }

  /** Call the receiver a probe handed out. */
  method Deliver<T, D>(pipes: seq<CapacityPipe<T>>, inlet: Inlet<T>, t: Target<D>, m: T)
    requires Wired(pipes, inlet)
    requires t.Buffer? ==> t.index < |pipes| && pipes[t.index].HasSpareCapacity()
    modifies pipes
    ensures Wired(pipes, inlet)
    ensures Snapshot(pipes, inlet) == DeliverAt(old(Snapshot(pipes, inlet)), t, m)
  {
    ghost var c := Snapshot(pipes, inlet);
    match t
    case External(_) =>
      // the receiver beyond pipe 0's outlet takes the message; it leaves the line
    case Buffer(k) =>
      AcceptAt(pipes, inlet, k, m);
  }

  /** `FindReceiver` on the last pipe, and the receiver it hands out called with `m`. */
  method Push<T, D>(pipes: seq<CapacityPipe<T>>, inlet: Inlet<T>, m: T, downstream: Option<D>) returns (t: Option<Target<D>>)
    requires Wired(pipes, inlet) && |pipes| > 0
    modifies pipes
    ensures Wired(pipes, inlet)
    ensures (t, Snapshot(pipes, inlet)) == PushSpec(old(Snapshot(pipes, inlet)), m, downstream)
  {
    t := ProbeReceiver(pipes, inlet, |pipes| - 1, downstream);
    match t
    case None =>
    case Some(target) =>
      Deliver(pipes, inlet, target, m);
  }

  /** `Send` on the last pipe's inlet, with the pipe's receiver probe as the offer. */
  method Send<T, D>(pipes: seq<CapacityPipe<T>>, inlet: Inlet<T>, m: T, downstream: Option<D>) returns (h: Handoff<D>)
    requires Wired(pipes, inlet) && |pipes| > 0
    modifies pipes, inlet
    ensures Wired(pipes, inlet) && forall w :: w in inlet.waiting ==> w in old(inlet.waiting) || fresh(w)
    ensures (h, Snapshot(pipes, inlet)) == SendSpec(old(Snapshot(pipes, inlet)), m, downstream)
  {
    ghost var c := Snapshot(pipes, inlet);
    var offer := ProbeReceiver(pipes, inlet, |pipes| - 1, downstream);
    SendSpecCases(c, m, downstream);
    var r := inlet.Send(m, offer);
    if r.Delivered? {
      assert Snapshot(pipes, inlet) == c;
      Deliver(pipes, inlet, r.receiver, m);
      h := Handed(r.receiver);
    } else {
      h := Handoff.Queued;
      assert Snapshot(pipes, inlet) == c.(waiting := c.waiting + [m]);
    }
  }

  /** One push into a packed line below its total capacity, with nothing beyond pipe 0: the message joins the tail. */
  method PushOne<T, D>(pipes: seq<CapacityPipe<T>>, inlet: Inlet<T>, m: T, beyond: Option<D>)
    requires Wired(pipes, inlet) && |pipes| > 0 && inlet.waiting == [] && beyond == None
    requires Packed(Snapshot(pipes, inlet))
    requires |Contents(Snapshot(pipes, inlet))| < TotalCapacity(Snapshot(pipes, inlet).capacities)
    modifies pipes
    ensures Wired(pipes, inlet) && Packed(Snapshot(pipes, inlet))
    ensures Snapshot(pipes, inlet).capacities == old(Snapshot(pipes, inlet).capacities)
    ensures Contents(Snapshot(pipes, inlet)) == old(Contents(Snapshot(pipes, inlet))) + [m]
  {
    WiredIsWellFormed(pipes, inlet);
    PushBelowCapacityAppends(Snapshot(pipes, inlet), m, beyond);
    var t := Push(pipes, inlet, m, beyond);
  }

  /** Push `ms` one by one through the last pipe's receiver probe, into a line with room for all of them. */
  method PushAll<T, D>(pipes: seq<CapacityPipe<T>>, inlet: Inlet<T>, ms: seq<T>, beyond: Option<D>)
    requires Wired(pipes, inlet) && |pipes| > 0 && inlet.waiting == [] && beyond == None
    requires Packed(Snapshot(pipes, inlet))
    requires |Contents(Snapshot(pipes, inlet))| + |ms| <= TotalCapacity(Snapshot(pipes, inlet).capacities)
    modifies pipes
    ensures Wired(pipes, inlet) && Packed(Snapshot(pipes, inlet))
    ensures Snapshot(pipes, inlet).capacities == old(Snapshot(pipes, inlet).capacities)
    ensures Contents(Snapshot(pipes, inlet)) == old(Contents(Snapshot(pipes, inlet))) + ms
  {
    ghost var start := Contents(Snapshot(pipes, inlet));
    ghost var caps := Snapshot(pipes, inlet).capacities;
    var k := 0;
    while k < |ms|
      invariant k <= |ms|
      invariant Wired(pipes, inlet) && Packed(Snapshot(pipes, inlet))
      invariant Snapshot(pipes, inlet).capacities == caps
      invariant Contents(Snapshot(pipes, inlet)) == start + ms[..k]
    {
      PushOne(pipes, inlet, ms[k], beyond);
      AppendStep(start, ms, k);
      k := k + 1;
    }
    assert ms[..k] == ms;
  }

  /** One pull through pipe 0's sender probe on a packed line that holds something: the head of the line comes out. */
  method PullHead<T>(pipes: seq<CapacityPipe<T>>, inlet: Inlet<T>) returns (m: T)
    requires Wired(pipes, inlet) && Packed(Snapshot(pipes, inlet)) && Contents(Snapshot(pipes, inlet)) != []
    modifies pipes, inlet, set w | w in inlet.waiting
    ensures Wired(pipes, inlet) && forall w :: w in inlet.waiting ==> w in old(inlet.waiting)
    ensures Packed(Snapshot(pipes, inlet))
    ensures [m] + Contents(Snapshot(pipes, inlet)) == old(Contents(Snapshot(pipes, inlet)))
  {
    WiredIsWellFormed(pipes, inlet);
    PullHeadOfLine(Snapshot(pipes, inlet));
    var r := PullFrom(pipes, 0, inlet);
    m := r.value;
  }

  /** Pull `n` messages through pipe 0's sender probe, from a line that holds at least `n`. */
  method PullAll<T>(pipes: seq<CapacityPipe<T>>, inlet: Inlet<T>, n: nat) returns (received: seq<T>)
    requires Wired(pipes, inlet) && Packed(Snapshot(pipes, inlet))
    requires n <= |Contents(Snapshot(pipes, inlet))|
    modifies pipes, inlet, set w | w in inlet.waiting
    ensures Wired(pipes, inlet) && Packed(Snapshot(pipes, inlet))
    ensures received == old(Contents(Snapshot(pipes, inlet)))[..n]
    ensures Contents(Snapshot(pipes, inlet)) == old(Contents(Snapshot(pipes, inlet)))[n..]
  {
    ghost var start := Contents(Snapshot(pipes, inlet));
    ghost var queued := inlet.waiting;
    received := [];
    while |received| < n
      invariant |received| <= n
      invariant forall w :: w in inlet.waiting ==> w in queued
      invariant Wired(pipes, inlet) && Packed(Snapshot(pipes, inlet))
      invariant received + Contents(Snapshot(pipes, inlet)) == start
      modifies pipes, inlet, set w | w in queued
    {
      ghost var before := Contents(Snapshot(pipes, inlet));
      var m := PullHead(pipes, inlet);
      assert received + [m] + Contents(Snapshot(pipes, inlet)) == received + before;
      received := received + [m];
    }
    SplitAt(received, Contents(Snapshot(pipes, inlet)), start);
  }

  lemma SplitAt<X>(a: seq<X>, b: seq<X>, s: seq<X>)
    requires a + b == s
    ensures a == s[..|a|] && b == s[|a|..]
  {
  }

  /** A send into a packed line that holds its total capacity waits, and its message joins the tail. */
  method SendToFullLine<T, D>(pipes: seq<CapacityPipe<T>>, inlet: Inlet<T>, m: T, beyond: Option<D>) returns (h: Handoff<D>)
    requires Wired(pipes, inlet) && |pipes| > 0 && beyond == None && Packed(Snapshot(pipes, inlet))
    requires |Contents(Snapshot(pipes, inlet))| >= TotalCapacity(Snapshot(pipes, inlet).capacities)
    modifies pipes, inlet
    ensures Wired(pipes, inlet) && Packed(Snapshot(pipes, inlet))
    ensures forall w :: w in inlet.waiting ==> w in old(inlet.waiting) || fresh(w)
    ensures h == Handoff.Queued
    ensures Contents(Snapshot(pipes, inlet)) == old(Contents(Snapshot(pipes, inlet))) + [m]
  {
    WiredIsWellFormed(pipes, inlet);
    SendIntoFullLineWaits(Snapshot(pipes, inlet), m, beyond);
    h := Send(pipes, inlet, m, beyond);
  }

  /**
   * An empty line filled to exactly its total capacity makes the next send
   * wait; draining the line then yields every message in the order it came.
   */
  method FillSendDrain<T, D>(pipes: seq<CapacityPipe<T>>, inlet: Inlet<T>, ms: seq<T>, last: T, beyond: Option<D>)
    returns (h: Handoff<D>, received: seq<T>)
    requires Wired(pipes, inlet) && |pipes| > 0 && inlet.waiting == [] && beyond == None
    requires Packed(Snapshot(pipes, inlet)) && Contents(Snapshot(pipes, inlet)) == []
    requires |ms| == TotalCapacity(Snapshot(pipes, inlet).capacities)
    modifies pipes, inlet
    ensures h == Handoff.Queued
    ensures received == ms + [last]
  {
    PushAll(pipes, inlet, ms, beyond);
    h := SendToFullLine(pipes, inlet, last, beyond);
    received := PullAll(pipes, inlet, |ms| + 1);
  }

  /** A new, empty line of a pipe of capacity 2 fed by a pipe of capacity 3. */
  method TwoPipeLine() returns (pipes: seq<CapacityPipe<int>>, inlet: Inlet<int>)
    ensures fresh(pipes) && fresh(inlet)
    ensures Wired(pipes, inlet) && |pipes| == 2 && inlet.waiting == []
    ensures Snapshot(pipes, inlet) == Chain([[], []], [2, 3], [])
  {
    var two := new CapacityPipe<int>(2);
    var three := new CapacityPipe<int>(3);
    inlet := new Inlet<int>();
    pipes := [two, three];
  }

  /**
   * The relay of two pipes: a pipe of capacity 3 whose outlet feeds a pipe of
   * capacity 2.  Five messages go straight in through the first pipe's
   * receiver probe, a sixth is sent and has to wait, and six pulls on the
   * second pipe's sender yield all six messages in order.
   */
  method ChainRelay() returns (sixth: Handoff<int>, received: seq<int>)
    ensures sixth == Handoff.Queued
    ensures received == [1, 2, 3, 4, 5, 6]
  {
    var pipes, inlet := TwoPipeLine();
    EmptyLineIsPacked(Snapshot(pipes, inlet));
    TotalCapacityOfTwo(2, 3);
    var beyond: Option<int> := None;
    sixth, received := FillSendDrain(pipes, inlet, [1, 2, 3, 4, 5], 6, beyond);
  }
}
