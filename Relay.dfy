/**
 * A line of capacity pipes, as values: the specification the wired objects
 * of module Wiring are proved against.
 *
 * `buffers[0]` is the buffer of the most downstream pipe; the outlet of pipe
 * `i + 1` is connected to the inlet of pipe `i`, and `waiting` holds the
 * messages of the senders queued on the inlet of the last pipe, which is not
 * connected.  A receiver probe enters at the last pipe and travels downstream
 * (`FindReceiver` asks the outlet); a sender probe enters at pipe 0 and
 * travels upstream (`FindSender` asks the inlet, which delegates to the
 * connected outlet's pipe).  The global order of the line is `Contents`:
 * pipe 0's buffer, then pipe 1's, ..., then the waiting senders.
 */
module Relay {
  import opened Wrappers
  import opened CapacityPipes

  datatype Chain<T> = Chain(buffers: seq<seq<T>>, capacities: seq<int>, waiting: seq<T>)

  /** Where a message pushed into the line goes: out of pipe 0's outlet, or into a buffer. */
  datatype Target<D> = External(receiver: D) | Buffer(index: nat)

  /** Which callback a pull from pipe `i` ends up running. */
  datatype PullOrigin = FromPipe(index: nat) | FromQueue

  /** What a send on the line's inlet does with its message. */
  datatype Handoff<D> = Handed(target: Target<D>) | Queued

  predicate Shaped<T>(c: Chain<T>) {
    |c.buffers| == |c.capacities|
  }

  ghost predicate WellFormed<T>(c: Chain<T>) {
    Shaped(c) && forall i :: 0 <= i < |c.buffers| ==> Fits(c.buffers[i], c.capacities[i])
  }

  predicate Spare<T>(c: Chain<T>, i: nat)
    requires Shaped(c) && i < |c.buffers|
  {
    |c.buffers[i]| < c.capacities[i]
  }

  function Concat<T>(bs: seq<seq<T>>): seq<T> {
    if bs == [] then [] else bs[0] + Concat(bs[1..])
  }

  /** The messages held from pipe `i` upstream, in delivery order. */
  function ContentsFrom<T>(c: Chain<T>, i: nat): seq<T>
    requires i <= |c.buffers|
  {
    Concat(c.buffers[i..]) + c.waiting
  }

  function Contents<T>(c: Chain<T>): seq<T> {
    ContentsFrom(c, 0)
  }

  /**
   * The shape of a line from pipe `i` upstream that the FIFO results need: a
   * pipe with room has nothing upstream of it, neither buffered nor waiting.
   * A line wired while empty keeps it (`EmptyLineIsPacked` and the push, send
   * and pull lemmas); a line wired after its pipes were filled need not have
   * it, see `StrandedBehindRoom`.
   */
  ghost predicate PackedFrom<T>(c: Chain<T>, i: nat)
    requires Shaped(c) && i <= |c.buffers|
  {
    forall j :: i <= j < |c.buffers| && Spare(c, j) ==> ContentsFrom(c, j + 1) == []
  }

  ghost predicate Packed<T>(c: Chain<T>)
    requires Shaped(c)
  {
    PackedFrom(c, 0)
  }

  /** The sum of the positive capacities: how many messages the line can buffer. */
  function TotalCapacity(capacities: seq<int>): nat {
    if capacities == [] then 0
    else (if capacities[0] > 0 then capacities[0] else 0) + TotalCapacity(capacities[1..])
  }

  // ---------------------------------------------------------------------------
  // The probes and callbacks

  /** `FindReceiver` of pipe `i`; for pipe 0 the outlet offers `downstream`. */
  function FindReceiverAt<T, D>(c: Chain<T>, i: nat, downstream: Option<D>): (r: Option<Target<D>>)
    requires Shaped(c) && i < |c.buffers|
    ensures r.Some? && r.value.Buffer? ==> r.value.index <= i && Spare(c, r.value.index)
    ensures r.Some? && r.value.External? ==> downstream == Some(r.value.receiver)
  {
    var below: Option<Target<D>> :=
      if i == 0 then (if downstream.Some? then Some(External(downstream.value)) else None)
      else FindReceiverAt(c, i - 1, downstream);
    match ReceiverChoice(|c.buffers[i]|, c.capacities[i], below)
    case None => None
    case Some(Forward(t)) => Some(t)
    case Some(Store) => Some(Buffer(i))
  }

  /** `FindSender` of pipe `i`; the last pipe's inlet serves its waiting senders. */
  function FindSenderAt<T>(c: Chain<T>, i: nat): (r: Option<PullOrigin>)
    requires Shaped(c) && i <= |c.buffers|
    ensures r.Some? && r.value.FromPipe? ==> i <= r.value.index < |c.buffers| && c.buffers[r.value.index] != []
    ensures r == Some(FromQueue) ==> c.waiting != []
    decreases |c.buffers| - i
  {
    if i == |c.buffers| then
      if c.waiting != [] then Some(FromQueue) else None
    else match SenderChoice(|c.buffers[i]|, c.capacities[i], FindSenderAt(c, i + 1))
      case None => None
      case Some(TakeStored) => Some(FromPipe(i))
      case Some(PassThrough(s)) => Some(s)
  }

  /** Probe pipe `i` for a sender and invoke what it hands out. */
  function PullAt<T>(c: Chain<T>, i: nat): (r: (Option<T>, Chain<T>))
    requires Shaped(c) && i <= |c.buffers|
    ensures |r.1.buffers| == |c.buffers| && r.1.capacities == c.capacities
    decreases |c.buffers| - i, 1
  {
    match FindSenderAt(c, i)
    case None => (None, c)
    case Some(FromQueue) => (Some(c.waiting[0]), c.(waiting := c.waiting[1..]))
    case Some(FromPipe(k)) =>
      var (m, c') := InvokeAt(c, k);
      (Some(m), c')
  }

  /** The sender callback of pipe `k`: dequeue the oldest message and, if the pipe was full, refill from upstream. */
  function InvokeAt<T>(c: Chain<T>, k: nat): (r: (T, Chain<T>))
    requires Shaped(c) && k < |c.buffers| && c.buffers[k] != []
    ensures |r.1.buffers| == |c.buffers| && r.1.capacities == c.capacities
    decreases |c.buffers| - k, 0
  {
    var m := c.buffers[k][0];
    var c1 := c.(buffers := c.buffers[k := c.buffers[k][1..]]);
    if RefillDue(|c1.buffers[k]|, c.capacities[k]) then
      var (up, c2) := PullAt(c1, k + 1);
      match up
      case None => (m, c2)
      case Some(x) => (m, c2.(buffers := c2.buffers[k := c2.buffers[k] + [x]]))
    else
      (m, c1)
  }

  /** Invoke the receiver a probe handed out. */
  function DeliverAt<T, D>(c: Chain<T>, t: Target<D>, m: T): (r: Chain<T>)
    requires Shaped(c) && (t.Buffer? ==> t.index < |c.buffers|)
    ensures Shaped(r) && r.capacities == c.capacities && r.waiting == c.waiting
    // a message handed out of pipe 0's outlet leaves the line as it was
    ensures t.External? ==> r == c
    // a buffer receiver appends to its own buffer and to no other
    ensures t.Buffer? ==> r.buffers[t.index] == c.buffers[t.index] + [m]
    ensures t.Buffer? ==> forall j :: 0 <= j < |c.buffers| && j != t.index ==> r.buffers[j] == c.buffers[j]
    // a receiver handed out only under the room test keeps every buffer within capacity
    ensures WellFormed(c) && (t.Buffer? ==> Spare(c, t.index)) ==> WellFormed(r)
  {
    match t
    case External(_) => c
    case Buffer(k) => c.(buffers := c.buffers[k := c.buffers[k] + [m]])
  }

  /** `FindReceiver` on the last pipe, and the receiver it hands out invoked with `m`. */
  function PushSpec<T, D>(c: Chain<T>, m: T, downstream: Option<D>): (r: (Option<Target<D>>, Chain<T>))
    requires Shaped(c) && |c.buffers| > 0
    ensures Shaped(r.1) && r.1.capacities == c.capacities && r.1.waiting == c.waiting
    // no receiver anywhere: the message is refused and nothing changes
    ensures r.0 == None ==> r.1 == c
    // a message leaving through pipe 0's outlet changes nothing in the line
    ensures r.0.Some? && r.0.value.External? ==> downstream == Some(r.0.value.receiver) && r.1 == c
    // a stored message lands at the tail of a buffer that had room
    ensures r.0.Some? && r.0.value.Buffer? ==>
              r.0.value.index < |c.buffers| && Spare(c, r.0.value.index) &&
              r.1.buffers[r.0.value.index] == c.buffers[r.0.value.index] + [m]
    // pushing never overfills a buffer
    ensures WellFormed(c) ==> WellFormed(r.1)
  {
    match FindReceiverAt(c, |c.buffers| - 1, downstream)
    case None => (None, c)
    case Some(t) => (Some(t), DeliverAt(c, t, m))
  }

  /** `Send` on the last pipe's inlet: hand over at once if nobody waits and a receiver exists, else queue. */
  function SendSpec<T, D>(c: Chain<T>, m: T, downstream: Option<D>): (r: (Handoff<D>, Chain<T>))
    requires Shaped(c) && |c.buffers| > 0
    ensures Shaped(r.1) && r.1.capacities == c.capacities
    // a send waits exactly when senders already wait or no receiver is found, and then joins the tail of the queue
    ensures r.0 == Queued <==> c.waiting != [] || FindReceiverAt(c, |c.buffers| - 1, downstream) == None
    ensures r.0 == Queued ==> r.1 == c.(waiting := c.waiting + [m])
    // a send handed over at once found nobody waiting, and leaves the queue empty
    ensures r.0.Handed? ==> c.waiting == [] && r.1.waiting == []
    // sending never overfills a buffer
    ensures WellFormed(c) ==> WellFormed(r.1)
  {
    if c.waiting != [] then (Queued, c.(waiting := c.waiting + [m]))
    else
      var (t, c') := PushSpec(c, m, downstream);
      match t
      case None => (Queued, c.(waiting := c.waiting + [m]))
      case Some(target) => (Handed(target), c')
  }

  /** The two outcomes of `SendSpec`, with the receiver probe evaluated once. */
  lemma SendSpecCases<T, D>(c: Chain<T>, m: T, downstream: Option<D>)
    requires Shaped(c) && |c.buffers| > 0
    ensures var offer := FindReceiverAt(c, |c.buffers| - 1, downstream);
      SendSpec(c, m, downstream) ==
        if c.waiting == [] && offer.Some? then (Handed(offer.value), DeliverAt(c, offer.value, m))
        else (Queued, c.(waiting := c.waiting + [m]))
  {
  }

  // ---------------------------------------------------------------------------
  // Facts about the global order

  lemma {:induction false} ConcatAppend<T>(bs: seq<seq<T>>, cs: seq<seq<T>>)
    ensures Concat(bs + cs) == Concat(bs) + Concat(cs)
  {
    if bs == [] {
      assert bs + cs == cs;
    } else {
      assert (bs + cs)[1..] == bs[1..] + cs;
      ConcatAppend(bs[1..], cs);
    }
  }

  lemma ContentsFromStep<T>(c: Chain<T>, i: nat)
    requires i < |c.buffers|
    ensures ContentsFrom(c, i) == c.buffers[i] + ContentsFrom(c, i + 1)
  {
    assert c.buffers[i..][1..] == c.buffers[i + 1..];
  }

  /** A suffix of the line is empty exactly when all its buffers and the waiting queue are. */
  lemma {:induction false} EmptyFrom<T>(c: Chain<T>, i: nat)
    requires i <= |c.buffers|
    ensures ContentsFrom(c, i) == [] <==> c.waiting == [] && forall j :: i <= j < |c.buffers| ==> c.buffers[j] == []
    decreases |c.buffers| - i
  {
    if i < |c.buffers| {
      ContentsFromStep(c, i);
      EmptyFrom(c, i + 1);
    }
  }

  /** The total capacity of a line of two pipes. */
  lemma TotalCapacityOfTwo(a: int, b: int)
    requires a >= 0 && b >= 0
    ensures TotalCapacity([a, b]) == a + b
  {
    assert [b][1..] == [];
    assert TotalCapacity([b]) == b;
    assert [a, b][1..] == [b];
  }

  /** A line with nothing buffered and nobody waiting holds nothing, and is packed. */
  lemma EmptyLineIsPacked<T>(c: Chain<T>)
    requires Shaped(c) && c.waiting == [] && forall j :: 0 <= j < |c.buffers| ==> c.buffers[j] == []
    ensures Contents(c) == [] && Packed(c)
  {
    forall j | 0 <= j <= |c.buffers| ensures ContentsFrom(c, j) == [] {
      EmptyFrom(c, j);
    }
  }

  /**
   * Connecting does not look at the buffers, so two pipes filled while apart
   * can be joined into a line that is not packed.  In this one pipe 0 is
   * empty with room: the first pull takes its message, the second finds
   * nothing although message 2 is still held upstream, and the receiver probe
   * keeps offering pipe 1's buffer.
   */
  lemma StrandedBehindRoom()
    ensures var c := Chain([[1], [2]], [2, 3], []);
      var c' := PullAt(c, 0).1;
      && WellFormed(c) && !Packed(c)
      && PullAt(c, 0).0 == Some(1) && c' == Chain([[], [2]], [2, 3], [])
      && PullAt(c', 0) == (None, c') && Contents(c') == [2]
      && FindReceiverAt(c', 1, Option<int>.None) == Some(Buffer(1))
  {
    var c := Chain([[1], [2]], [2, 3], []);
    assert Spare(c, 0) && ContentsFrom(c, 1) == [2] by {
      assert c.buffers[1..] == [[2]] && [[2]][1..] == [];
    }
    assert FindSenderAt(c, 0) == Some(FromPipe(0));
    var c' := Chain([[], [2]], [2, 3], []);
    assert [1][1..] == [] && c.buffers[0 := []] == c'.buffers;
    assert InvokeAt(c, 0) == (1, c');
    assert FindSenderAt(c', 0) == None;
    assert Contents(c') == [2] by {
      assert c'.buffers[0..] == [[], [2]] && [[], [2]][1..] == [[2]] && [[2]][1..] == [];
    }
  }

  /** Empty buffers between `i` and `k` add nothing to the order. */
  lemma {:induction false} ContentsSkip<T>(c: Chain<T>, i: nat, k: nat)
    requires i <= k <= |c.buffers|
    requires forall j :: i <= j < k ==> c.buffers[j] == []
    ensures ContentsFrom(c, i) == ContentsFrom(c, k)
    decreases k - i
  {
    if i < k {
      ContentsFromStep(c, i);
      ContentsSkip(c, i + 1, k);
    }
  }

  /** Two lines that agree from pipe `i` upstream hold the same messages there and are packed alike. */
  lemma SameFrom<T>(c: Chain<T>, d: Chain<T>, i: nat)
    requires Shaped(c) && Shaped(d) && |c.buffers| == |d.buffers| && i <= |c.buffers|
    requires c.buffers[i..] == d.buffers[i..] && c.capacities == d.capacities && c.waiting == d.waiting
    ensures forall j :: i <= j <= |c.buffers| ==> ContentsFrom(c, j) == ContentsFrom(d, j)
    ensures PackedFrom(c, i) <==> PackedFrom(d, i)
  {
    forall j | i <= j <= |c.buffers| ensures ContentsFrom(c, j) == ContentsFrom(d, j) {
      assert c.buffers[j..] == c.buffers[i..][j - i..];
      assert d.buffers[j..] == d.buffers[i..][j - i..];
    }
    forall j | i <= j < |c.buffers| ensures c.buffers[j] == d.buffers[j] {
      assert c.buffers[j] == c.buffers[i..][j - i];
    }
    forall j | i <= j < |c.buffers|
      ensures Spare(c, j) == Spare(d, j) && ContentsFrom(c, j + 1) == ContentsFrom(d, j + 1)
    {
    }
  }

  /** Appending to the last non-empty buffer appends to the global order. */
  lemma {:induction false} ConcatAppendAt<T>(bs: seq<seq<T>>, k: nat, m: T)
    requires k < |bs|
    requires forall j :: k < j < |bs| ==> bs[j] == []
    ensures Concat(bs[k := bs[k] + [m]]) == Concat(bs) + [m]
  {
    var bs' := bs[k := bs[k] + [m]];
    if k == 0 {
      assert bs'[1..] == bs[1..];
      AllEmptyConcat(bs[1..]);
    } else {
      assert bs'[1..] == bs[1..][k - 1 := bs[1..][k - 1] + [m]];
      ConcatAppendAt(bs[1..], k - 1, m);
    }
  }

  lemma {:induction false} AllEmptyConcat<T>(bs: seq<seq<T>>)
    requires forall j :: 0 <= j < |bs| ==> bs[j] == []
    ensures Concat(bs) == []
  {
    if bs != [] {
      AllEmptyConcat(bs[1..]);
    }
  }

  /** A line in which no pipe has room buffers at least its total capacity. */
  lemma {:induction false} FullLineHoldsTotalCapacity<T>(bs: seq<seq<T>>, capacities: seq<int>)
    requires |bs| == |capacities|
    requires forall j :: 0 <= j < |bs| ==> |bs[j]| >= capacities[j]
    ensures |Concat(bs)| >= TotalCapacity(capacities)
  {
    if bs != [] {
      FullLineHoldsTotalCapacity(bs[1..], capacities[1..]);
    }
  }

  lemma NoRoomHoldsTotalCapacity<T>(c: Chain<T>)
    requires Shaped(c) && forall j :: 0 <= j < |c.buffers| ==> !Spare(c, j)
    ensures |Contents(c)| >= TotalCapacity(c.capacities)
  {
    forall j | 0 <= j < |c.buffers| ensures |c.buffers[j]| >= c.capacities[j] {
      assert !Spare(c, j);
    }
    FullLineHoldsTotalCapacity(c.buffers, c.capacities);
    assert c.buffers[0..] == c.buffers;
  }

  /** Buffers that respect their capacities hold at most the total capacity. */
  lemma {:induction false} FittingLineWithinTotalCapacity<T>(bs: seq<seq<T>>, capacities: seq<int>)
    requires |bs| == |capacities|
    requires forall j :: 0 <= j < |bs| ==> Fits(bs[j], capacities[j])
    ensures |Concat(bs)| <= TotalCapacity(capacities)
  {
    if bs != [] {
      assert Fits(bs[0], capacities[0]);
      FittingLineWithinTotalCapacity(bs[1..], capacities[1..]);
    }
  }

  /** A pipe with room, nothing upstream of it, and fitting buffers below: the line is under its total. */
  lemma {:induction false} RoomBelowTotalCapacity<T>(bs: seq<seq<T>>, capacities: seq<int>, j: nat)
    requires |bs| == |capacities| && j < |bs|
    requires forall i :: 0 <= i < |bs| ==> Fits(bs[i], capacities[i])
    requires |bs[j]| < capacities[j]
    requires forall i :: j < i < |bs| ==> bs[i] == []
    ensures |Concat(bs)| < TotalCapacity(capacities)
  {
    if j == 0 {
      AllEmptyConcat(bs[1..]);
    } else {
      assert Fits(bs[0], capacities[0]);
      RoomBelowTotalCapacity(bs[1..], capacities[1..], j - 1);
    }
  }

  /** In a packed line, any pipe with room means the line holds less than its total capacity. */
  lemma SpareMeansBelowTotalCapacity<T>(c: Chain<T>, j: nat)
    requires WellFormed(c) && Packed(c) && j < |c.buffers| && Spare(c, j)
    ensures |Contents(c)| < TotalCapacity(c.capacities)
  {
    EmptyFrom(c, j + 1);
    assert c.buffers[0..] == c.buffers;
    RoomBelowTotalCapacity(c.buffers, c.capacities, j);
  }

  // ---------------------------------------------------------------------------
  // Pulling

  /** Pulling never breaks the buffer invariant and leaves the pipes downstream of `i` alone. */
  lemma {:induction false} PullKeepsShape<T>(c: Chain<T>, i: nat)
    requires WellFormed(c) && i <= |c.buffers|
    ensures WellFormed(PullAt(c, i).1) && PullAt(c, i).1.buffers[..i] == c.buffers[..i]
    decreases |c.buffers| - i, 1
  {
    match FindSenderAt(c, i)
    case None =>
    case Some(FromQueue) =>
    case Some(FromPipe(k)) =>
      InvokeKeepsShape(c, k);
      assert c.buffers[..i] == c.buffers[..k][..i];
      assert PullAt(c, i).1.buffers[..i] == InvokeAt(c, k).1.buffers[..k][..i];
  }

  lemma {:induction false} InvokeKeepsShape<T>(c: Chain<T>, k: nat)
    requires WellFormed(c) && k < |c.buffers| && c.buffers[k] != []
    ensures WellFormed(InvokeAt(c, k).1) && InvokeAt(c, k).1.buffers[..k] == c.buffers[..k]
    decreases |c.buffers| - k, 0
  {
    var c1 := c.(buffers := c.buffers[k := c.buffers[k][1..]]);
    assert WellFormed(c1);
    assert c1.buffers[..k] == c.buffers[..k];
    if RefillDue(|c1.buffers[k]|, c.capacities[k]) {
      PullKeepsShape(c1, k + 1);
      var c2 := PullAt(c1, k + 1).1;
      assert c2.buffers[k] == c2.buffers[..k + 1][k] == c1.buffers[k];
      assert c2.buffers[..k] == c2.buffers[..k + 1][..k];
    }
  }

  /** Where a sender probe lands: past empty pass-through pipes only. */
  lemma {:induction false} FindSenderAtSkipsEmpty<T>(c: Chain<T>, i: nat)
    requires Shaped(c) && i <= |c.buffers|
    ensures var r := FindSenderAt(c, i);
      && (r.Some? && r.value.FromPipe? ==> forall j :: i <= j < r.value.index ==> c.buffers[j] == [] && c.capacities[j] <= 0)
      && (r == Some(FromQueue) ==> forall j :: i <= j < |c.buffers| ==> c.buffers[j] == [] && c.capacities[j] <= 0)
      && (r == None && WellFormed(c) && PackedFrom(c, i) ==> ContentsFrom(c, i) == [])
    decreases |c.buffers| - i
  {
    if i < |c.buffers| {
      FindSenderAtSkipsEmpty(c, i + 1);
      ContentsFromStep(c, i);
      if FindSenderAt(c, i) == None && WellFormed(c) && PackedFrom(c, i) && c.capacities[i] > 0 {
        assert Spare(c, i);
      }
    }
  }

  /**
   * FIFO across the whole line: a pull from pipe `i` yields the oldest message
   * held from `i` upstream, or nothing when there is none, and the remaining
   * messages keep their order.
   */
  lemma {:induction false} PullFifo<T>(c: Chain<T>, i: nat)
    requires WellFormed(c) && i <= |c.buffers| && PackedFrom(c, i)
    ensures var (m, c') := PullAt(c, i);
      && PackedFrom(c', i)
      && (ContentsFrom(c, i) == [] ==> m == None && c' == c)
      && (ContentsFrom(c, i) != [] ==> m == Some(ContentsFrom(c, i)[0]) && ContentsFrom(c', i) == ContentsFrom(c, i)[1..])
    decreases |c.buffers| - i, 1
  {
    FindSenderAtSkipsEmpty(c, i);
    match FindSenderAt(c, i)
    case None =>
    case Some(FromQueue) =>
      ContentsSkip(c, i, |c.buffers|);
      var c' := PullAt(c, i).1;
      ContentsSkip(c', i, |c.buffers|);
      EmptyFrom(c', i + 0);
    case Some(FromPipe(k)) =>
      ContentsSkip(c, i, k);
      InvokeFifo(c, k);
      InvokeKeepsShape(c, k);
      var c' := PullAt(c, i).1;
      forall j | i <= j < k ensures c'.buffers[j] == [] && c'.capacities[j] <= 0 {
        assert c'.buffers[j] == c'.buffers[..k][j];
      }
      ContentsSkip(c', i, k);
  }

  lemma {:induction false} InvokeFifo<T>(c: Chain<T>, k: nat)
    requires WellFormed(c) && k < |c.buffers| && c.buffers[k] != [] && PackedFrom(c, k)
    ensures var (m, c') := InvokeAt(c, k);
      && PackedFrom(c', k)
      && m == ContentsFrom(c, k)[0]
      && ContentsFrom(c', k) == ContentsFrom(c, k)[1..]
    decreases |c.buffers| - k, 0
  {
    var bk := c.buffers[k];
    var c1 := c.(buffers := c.buffers[k := bk[1..]]);
    ContentsFromStep(c, k);
    ContentsFromStep(c1, k);
    assert c1.buffers[k + 1..] == c.buffers[k + 1..];
    SameFrom(c, c1, k + 1);
    var rest := ContentsFrom(c, k + 1);
    var (m, c') := InvokeAt(c, k);
    if RefillDue(|c1.buffers[k]|, c.capacities[k]) {
      PullFifo(c1, k + 1);
      PullKeepsShape(c1, k + 1);
      var (up, c2) := PullAt(c1, k + 1);
      assert c2.buffers[k] == c2.buffers[..k + 1][k] == bk[1..];
      ContentsFromStep(c', k);
      match up
      case None =>
        assert c' == c2 == c1;
      case Some(x) =>
        assert c'.buffers[k + 1..] == c2.buffers[k + 1..];
        SameFrom(c', c2, k + 1);
        assert c'.buffers[k] == bk[1..] + [x];
        assert ContentsFrom(c', k) == bk[1..] + [x] + rest[1..];
        assert (bk + rest)[1..] == bk[1..] + [rest[0]] + rest[1..];
    } else {
      assert Spare(c, k);
      assert c' == c1;
    }
  }

  /** Pulling from pipe 0 hands out the oldest message of the whole line and keeps the line packed. */
  lemma PullHeadOfLine<T>(c: Chain<T>)
    requires WellFormed(c) && Packed(c) && Contents(c) != []
    ensures PullAt(c, 0).0 == Some(Contents(c)[0])
    ensures Contents(PullAt(c, 0).1) == Contents(c)[1..]
    ensures WellFormed(PullAt(c, 0).1) && Packed(PullAt(c, 0).1)
  {
    PullFifo(c, 0);
    PullKeepsShape(c, 0);
  }

  // ---------------------------------------------------------------------------
  // Pushing

  /** A non-empty buffer at `i` makes everything held from any `j <= i` upstream non-empty. */
  lemma {:induction false} NonEmptyFrom<T>(c: Chain<T>, j: nat, i: nat)
    requires j <= i < |c.buffers| && c.buffers[i] != []
    ensures ContentsFrom(c, j) != []
    decreases i - j
  {
    ContentsFromStep(c, j);
    if j < i {
      NonEmptyFrom(c, j + 1, i);
    }
  }

  /** On a packed line every pipe downstream of a non-empty pipe is full. */
  lemma FullBelowNonEmpty<T>(c: Chain<T>, i: nat)
    requires WellFormed(c) && Packed(c) && i < |c.buffers| && c.buffers[i] != []
    ensures forall j :: 0 <= j < i ==> !Spare(c, j)
  {
    forall j | 0 <= j < i ensures !Spare(c, j) {
      NonEmptyFrom(c, j + 1, i);
    }
  }

  /** A receiver probe entering at pipe `i` of a packed line finds nothing only when no pipe up to `i` has room. */
  lemma {:induction false} FindReceiverNoneMeansFull<T, D>(c: Chain<T>, i: nat, downstream: Option<D>)
    requires WellFormed(c) && Packed(c) && i < |c.buffers|
    requires FindReceiverAt(c, i, downstream) == None
    ensures forall j :: 0 <= j <= i ==> !Spare(c, j)
  {
    if c.buffers[i] != [] {
      FullBelowNonEmpty(c, i);
    } else if i > 0 {
      FindReceiverNoneMeansFull(c, i - 1, downstream);
    }
  }

  /** The path of a receiver probe that picks buffer `k`: only empty pipes between `k` and `i`, and nothing taken below an empty `k`. */
  lemma {:induction false} FindReceiverBufferPath<T, D>(c: Chain<T>, i: nat, downstream: Option<D>, k: nat)
    requires Shaped(c) && i < |c.buffers|
    requires FindReceiverAt(c, i, downstream) == Some(Buffer(k))
    ensures k <= i && forall j :: k < j <= i ==> c.buffers[j] == []
    ensures k > 0 && c.buffers[k] == [] ==> FindReceiverAt(c, k - 1, downstream) == None
  {
    if c.buffers[i] != [] {
      // a non-empty pipe offers only itself
      assert k == i;
    } else if k == i {
      // an empty pipe offers itself only when nothing below it takes the message
      if i > 0 {
        assert FindReceiverAt(c, i - 1, downstream) == None;
      }
    } else {
      // an empty pipe otherwise forwards what the pipe below it offers
      assert i > 0 && FindReceiverAt(c, i - 1, downstream) == Some(Buffer(k));
      FindReceiverBufferPath(c, i - 1, downstream, k);
    }
  }

  /** A buffer offered by the probe is the first pipe with room, with only empty pipes between it and `i`. */
  lemma FindReceiverBufferShape<T, D>(c: Chain<T>, i: nat, downstream: Option<D>, k: nat)
    requires WellFormed(c) && Packed(c) && i < |c.buffers|
    requires FindReceiverAt(c, i, downstream) == Some(Buffer(k))
    ensures forall j :: 0 <= j < k ==> !Spare(c, j)
    ensures forall j :: k < j <= i ==> c.buffers[j] == []
  {
    FindReceiverBufferPath(c, i, downstream, k);
    if c.buffers[k] != [] {
      FullBelowNonEmpty(c, k);
    } else if k > 0 {
      FindReceiverNoneMeansFull(c, k - 1, downstream);
    }
  }

  /** The downstream receiver is offered only through pipes that are all empty. */
  lemma {:induction false} FindReceiverExternalShape<T, D>(c: Chain<T>, i: nat, downstream: Option<D>, x: D)
    requires Shaped(c) && i < |c.buffers|
    requires FindReceiverAt(c, i, downstream) == Some(External(x))
    ensures forall j :: 0 <= j <= i ==> c.buffers[j] == []
  {
    if i > 0 {
      FindReceiverExternalShape(c, i - 1, downstream, x);
    }
  }

  /** Storing into the first pipe with room, all pipes above it empty, appends to the global order. */
  lemma StoreAppends<T>(c: Chain<T>, k: nat, m: T)
    requires WellFormed(c) && Packed(c) && c.waiting == [] && k < |c.buffers| && Spare(c, k)
    requires forall j :: 0 <= j < k ==> !Spare(c, j)
    requires forall j :: k < j < |c.buffers| ==> c.buffers[j] == []
    ensures var c' := c.(buffers := c.buffers[k := c.buffers[k] + [m]]);
      WellFormed(c') && Packed(c') && Contents(c') == Contents(c) + [m]
  {
    var c' := c.(buffers := c.buffers[k := c.buffers[k] + [m]]);
    ConcatAppendAt(c.buffers, k, m);
    assert c.buffers[0..] == c.buffers && c'.buffers[0..] == c'.buffers;
    forall j | k <= j < |c.buffers| && Spare(c', j) ensures ContentsFrom(c', j + 1) == [] {
      EmptyFrom(c', j + 1);
    }
    forall j | 0 <= j < k ensures !Spare(c', j) {
      assert c'.buffers[j] == c.buffers[j] && !Spare(c, j);
    }
  }

  /**
   * A push into the last pipe of a packed line with nobody waiting: the
   * message goes out at once when the line is empty and a receiver waits
   * downstream, is appended at the tail of the global order when some pipe
   * has room, and is refused only when the line holds its total capacity.
   */
  lemma PushFifo<T, D>(c: Chain<T>, m: T, downstream: Option<D>)
    requires WellFormed(c) && Packed(c) && |c.buffers| > 0 && c.waiting == []
    ensures var (t, c') := PushSpec(c, m, downstream);
      && WellFormed(c') && Packed(c') && c'.capacities == c.capacities && c'.waiting == c.waiting
      && (t == None ==> c' == c && |Contents(c)| >= TotalCapacity(c.capacities))
      && (t.Some? && t.value.External? ==> c' == c && Contents(c) == [] && downstream == Some(t.value.receiver))
      && (t.Some? && t.value.Buffer? ==> Contents(c') == Contents(c) + [m])
  {
    var t := FindReceiverAt(c, |c.buffers| - 1, downstream);
    if t == None {
      PushRefused(c, m, downstream);
    } else if t.value.External? {
      PushForwarded(c, m, downstream, t.value.receiver);
    } else {
      PushStored(c, m, downstream, t.value.index);
    }
  }

  lemma PushRefused<T, D>(c: Chain<T>, m: T, downstream: Option<D>)
    requires WellFormed(c) && Packed(c) && |c.buffers| > 0
    requires FindReceiverAt(c, |c.buffers| - 1, downstream) == None
    ensures PushSpec(c, m, downstream) == (None, c)
    ensures |Contents(c)| >= TotalCapacity(c.capacities)
  {
    FindReceiverNoneMeansFull(c, |c.buffers| - 1, downstream);
    NoRoomHoldsTotalCapacity(c);
  }

  lemma PushForwarded<T, D>(c: Chain<T>, m: T, downstream: Option<D>, x: D)
    requires Shaped(c) && |c.buffers| > 0 && c.waiting == []
    requires FindReceiverAt(c, |c.buffers| - 1, downstream) == Some(External(x))
    ensures PushSpec(c, m, downstream) == (Some(External(x)), c)
    ensures Contents(c) == [] && downstream == Some(x)
  {
    FindReceiverExternalShape(c, |c.buffers| - 1, downstream, x);
    EmptyFrom(c, 0);
  }

  lemma PushStored<T, D>(c: Chain<T>, m: T, downstream: Option<D>, k: nat)
    requires WellFormed(c) && Packed(c) && |c.buffers| > 0 && c.waiting == []
    requires FindReceiverAt(c, |c.buffers| - 1, downstream) == Some(Buffer(k))
    ensures k < |c.buffers|
    ensures var c' := c.(buffers := c.buffers[k := c.buffers[k] + [m]]);
      && PushSpec(c, m, downstream) == (Some(Buffer(k)), c')
      && WellFormed(c') && Packed(c') && Contents(c') == Contents(c) + [m]
  {
    FindReceiverBufferShape(c, |c.buffers| - 1, downstream, k);
    StoreAppends(c, k, m);
    PushIntoBuffer(c, m, downstream, k);
  }

  /** The push step of `PushStored` on its own: a buffer receiver appends to that buffer. */
  lemma PushIntoBuffer<T, D>(c: Chain<T>, m: T, downstream: Option<D>, k: nat)
    requires Shaped(c) && |c.buffers| > 0
    requires FindReceiverAt(c, |c.buffers| - 1, downstream) == Some(Buffer(k))
    ensures k < |c.buffers|
    ensures PushSpec(c, m, downstream) == (Some(Buffer(k)), c.(buffers := c.buffers[k := c.buffers[k] + [m]]))
  {
    var t: Target<D> := Buffer(k);
    assert PushSpec(c, m, downstream) == (Some(t), DeliverAt(c, t, m));
  }

  /**
   * `Send` on a packed line: a new message never overtakes a queued one and
   * leaves the line packed.  It goes out at once only through an empty line;
   * otherwise it joins the tail of the global order, buffered if a pipe has
   * room and nobody waits, queued as a waiting sender if not.
   */
  lemma SendFifo<T, D>(c: Chain<T>, m: T, downstream: Option<D>)
    requires WellFormed(c) && Packed(c) && |c.buffers| > 0
    ensures var (h, c') := SendSpec(c, m, downstream);
      && WellFormed(c') && Packed(c') && c'.capacities == c.capacities
      && (h.Handed? && h.target.External? ==> c' == c && Contents(c) == [] && downstream == Some(h.target.receiver))
      && (!(h.Handed? && h.target.External?) ==> Contents(c') == Contents(c) + [m])
      && (h == Queued ==> |Contents(c)| >= TotalCapacity(c.capacities))
  {
    var n := |c.buffers|;
    var (h, c') := SendSpec(c, m, downstream);
    assert c.buffers[0..] == c.buffers && c'.buffers[0..] == c'.buffers;
    if c.waiting != [] {
      // a waiting sender means no pipe has room
      forall j | 0 <= j < n ensures !Spare(c, j) && !Spare(c', j) {
        EmptyFrom(c, j + 1);
      }
      NoRoomHoldsTotalCapacity(c);
    } else {
      PushFifo(c, m, downstream);
      if h == Queued {
        FindReceiverNoneMeansFull(c, n - 1, downstream);
        forall j | 0 <= j < n ensures !Spare(c', j) {
          assert !Spare(c, j);
        }
      }
    }
  }

  /** A push into a packed line below its total capacity, with nothing beyond pipe 0, lands at the tail. */
  lemma PushBelowCapacityAppends<T, D>(c: Chain<T>, m: T, downstream: Option<D>)
    requires WellFormed(c) && Packed(c) && |c.buffers| > 0 && c.waiting == [] && downstream == None
    requires |Contents(c)| < TotalCapacity(c.capacities)
    ensures var c' := PushSpec(c, m, downstream).1;
      && WellFormed(c') && Packed(c') && c'.waiting == [] && c'.capacities == c.capacities
      && Contents(c') == Contents(c) + [m]
  {
    PushFifo(c, m, downstream);
  }

  /** A send into a packed line that holds its total capacity waits, and its message joins the tail. */
  lemma SendIntoFullLineWaits<T, D>(c: Chain<T>, m: T, downstream: Option<D>)
    requires WellFormed(c) && Packed(c) && |c.buffers| > 0 && downstream == None
    requires |Contents(c)| >= TotalCapacity(c.capacities)
    ensures SendSpec(c, m, downstream).0 == Queued
    ensures var c' := SendSpec(c, m, downstream).1;
      WellFormed(c') && Packed(c') && Contents(c') == Contents(c) + [m]
  {
    SendFifo(c, m, downstream);
    SendWaitsIffFull(c, m, downstream);
  }

  /**
   * With nothing beyond pipe 0, a send has to wait exactly when the line
   * already holds its total capacity: the line's capacity is the sum of its
   * pipes' capacities, no more and no less.
   */
  lemma SendWaitsIffFull<T, D>(c: Chain<T>, m: T, downstream: Option<D>)
    requires WellFormed(c) && Packed(c) && |c.buffers| > 0 && downstream == None
    ensures SendSpec(c, m, downstream).0 == Queued <==> |Contents(c)| >= TotalCapacity(c.capacities)
  {
    SendFifo(c, m, downstream);
    var r := FindReceiverAt(c, |c.buffers| - 1, downstream);
    if c.waiting == [] && r.Some? {
      SpareMeansBelowTotalCapacity(c, r.value.index);
    }
  }
}
