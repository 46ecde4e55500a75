# Pipes: capacity pipes, inlets and source pipes in Dafny

This project models the message-passing core of the Pipes library: a
bounded FIFO `CapacityPipe`, the `Inlet` with its queue of waiting senders,
and the stateless `SourcePipe`. It then proves facts about them.

Pipes are connected outlet-to-inlet. A message moves because of one of two
probes:

- **Receiver probe** (`FindReceiver`). It asks a pipe where an incoming message
  can go right now, and hands back a callback that takes the message.
- **Sender probe** (`FindSender`). It asks a pipe for a callback that produces
  its next message.

Each locked region of the source is one atomic method here. Threads,
semaphores and locks are not modelled. The way a blocked sender's wait ends
is an input: released, expired or interrupted.

Modules:

- `Wrappers`: `Option` and `Outcome`.
- `CapacityPipes`: the class `CapacityPipe`.
  - Its buffer is a `seq`, index 0 oldest. `Capacity` is an `int`.
  - The probes' branch choices are pure functions on the buffer's count:
    - `ReceiverChoice` returns `Forward` (the downstream receiver) or `Store` (the pipe's own buffer).
    - `SenderChoice` returns `TakeStored` or `PassThrough` (the upstream sender).
  - The callbacks are methods:
    - `Accept` is the enqueue receiver.
    - `InvokeSender` is the dequeue-and-refill sender.
  - Invariant `Valid`: at most `Capacity` messages, and none at all when `Capacity <= 0`.
- `Lets`: the classes `Inlet` and `WaitingSender`.
  - `Send`, `UseWaitingSender`, `FindSender` and `ConnectTo` are modelled.
  - The resolution of a finished wait exists twice:
    - `ResolveWaitAsWritten` follows the code exactly.
    - `ResolveWait` is the corrected version (see Findings).
  - Invariant `Valid`: no sender is queued twice, and no queued sender is marked sent.
- `SourcePipes`: the source pipe as a value. Its properties are set once by
  the constructor. The producer `Func<TMessage>` is an opaque parameter `P`.
- `Relay`: a line of capacity pipes as a pure value, used as the specification
  of the wired objects.
  - `buffers[0]` is the most downstream pipe. The line's inlet queue holds the
    waiting senders' messages.
  - `Contents` is the line's global order: pipe 0's buffer, then pipe 1's, and so
    on, then the waiting senders' messages.
  - `Packed` is the invariant that a pipe with room has nothing upstream of it.
    A line wired while empty keeps it. A line wired after its pipes were
    filled need not have it (`StrandedBehindRoom`).
  - The lemmas prove:
    - pulls take the head of `Contents`;
    - pushes and sends append at its tail;
    - with no receiver beyond pipe 0, a send waits exactly when the line holds its total capacity.
- `Wiring`: a sequence of `CapacityPipe` objects plus the last pipe's `Inlet`.
  - The probes are asked of the objects: `ProbeReceiver` and `ProbeSender`
    chain each pipe's own `FindReceiver` and `FindSender` and the inlet's
    `FindSender`. They are proved equal to `Relay.FindReceiverAt` and
    `Relay.FindSenderAt`.
  - The sender callback of pipe `k` is `InvokeFrom`. It runs the pipe's own
    `Dequeue`, `NeedsRefill` and `Accept`, with a pull from pipe `k + 1` in
    between. This is the body of `CapacityPipe.InvokeSender`, whose upstream
    message must be pulled from the other objects between the two steps.
  - The receivers handed out are the pipes' own `Accept`.
  - Each operation is proved equal to its `Relay` function through `Snapshot`.
  - `ChainRelay` is the test scenario of a capacity-3 pipe feeding a capacity-2
    pipe, carried out on objects.

## Model

| member | source | states |
|---|---|---|
| CapacityPipes.ReceiverChoice | Pipes/Pipes/Models/Pipes/CapacityPipe.cs:25-39 | The buffer is offered only when count < Capacity. A non-empty buffer never forwards downstream: it offers itself iff count < Capacity, else nothing. An empty buffer prefers the downstream receiver. Without one, it offers itself iff Capacity > 0. |
| CapacityPipes.SenderChoice | Pipes/Pipes/Models/Pipes/CapacityPipe.cs:41-60 | Serves from the buffer iff the buffer is non-empty. An empty buffer with positive capacity yields none. An empty buffer with capacity <= 0 hands out exactly the upstream sender. |
| CapacityPipes.PassThroughWhenNoCapacity | Pipes/Pipes/Models/Pipes/CapacityPipe.cs:25-60 | A pipe of capacity <= 0 that keeps its invariant has an empty buffer. Both of its probes forward the neighbour's callback unchanged. |
| CapacityPipes.CapacityPipe.constructor | Pipes/Pipes/Models/Pipes/CapacityPipe.cs:18-23 | A new pipe has the given capacity and an empty queue, so the invariant holds. |
| CapacityPipes.CapacityPipe.HasSpareCapacity | Pipes/Pipes/Models/Pipes/CapacityPipe.cs:62-65 | The room test that guards the buffer receiver, and the precondition of Accept. Room implies a positive capacity, and then the pipe would store a message offered to it alone. A pipe that keeps its invariant and has no room is either full or an empty pass-through pipe. |
| CapacityPipes.CapacityPipe.FindReceiver | Pipes/Pipes/Models/Pipes/CapacityPipe.cs:25-39 | The pipe's own receiver probe. It offers its buffer only under HasSpareCapacity. A non-empty pipe offers itself iff it has room, and never bypasses its messages. An empty pipe hands out the receiver its outlet offers. Without one, it offers itself iff it has room. These are the ReceiverChoice facts stated on the pipe. |
| CapacityPipes.CapacityPipe.FindSender | Pipes/Pipes/Models/Pipes/CapacityPipe.cs:41-60 | The pipe's own sender probe. It serves from its buffer iff it holds a message. An empty pipe of positive capacity offers nothing. An empty pass-through pipe hands out exactly the sender its inlet offers. These are the SenderChoice facts stated on the pipe. |
| CapacityPipes.CapacityPipe.Accept | Pipes/Pipes/Models/Pipes/CapacityPipe.cs:29 | The enqueue receiver appends at the tail. It keeps occupancy within Capacity because it runs only when there is room. |
| CapacityPipes.CapacityPipe.Dequeue | Pipes/Pipes/Models/Pipes/CapacityPipe.cs:47 | Returns the oldest message; the rest keep their order. |
| CapacityPipes.CapacityPipe.NeedsRefill | Pipes/Pipes/Models/Pipes/CapacityPipe.cs:49 | The refill test made after the dequeue, under which InvokeSender pulls from upstream. It holds only when exactly one slot is free: HasSpareCapacity holds, so the refill may use Accept, and the refill fills the pipe. |
| CapacityPipes.CapacityPipe.InvokeSender | Pipes/Pipes/Models/Pipes/CapacityPipe.cs:45-56 | Returns the oldest message. Exactly one upstream message is appended iff the buffer was full before the dequeue and upstream offers one, which leaves the buffer full again. Otherwise the rest of the buffer is unchanged. The invariant is kept. |
| Lets.Remove | Pipes/Pipes/Models/Lets/Inlet.cs:59 | List removal. An absent element leaves the list unchanged. A present one has its first occurrence removed, and the elements before and after it keep their order (so exactly one copy goes: multiset minus {x}). No new elements appear. On a duplicate-free list the element is gone afterwards and the list stays duplicate-free. |
| Lets.WaitingSender.constructor | Pipes/Pipes/Models/Lets/Inlet.cs:44 | A new waiting sender carries the message and is not yet marked sent. |
| Lets.WaitingSender.RecordMessageSent | Pipes/Pipes/Models/Lets/Inlet.cs:118 | Marks the sender as sent. |
| Lets.Inlet.constructor | Pipes/Pipes/Models/Lets/Inlet.cs:16-20 | A new inlet is unconnected and has an empty queue. |
| Lets.Inlet.HasWaitingSender | Pipes/Pipes/Models/Lets/Inlet.cs:109-112 | The test Send uses to queue behind earlier senders. On an unconnected inlet it holds iff FindSender offers the queue (ServeHead). An inlet with waiting senders is never ReadyToConnect. |
| Lets.Inlet.ReadyToConnect | Pipes/Pipes/Models/Lets/Inlet.cs:97-100 | The guard ConnectTo checks. An inlet may be connected iff it is unconnected and FindSender has no sender to offer, so connecting never leaves a queued message behind. |
| Lets.Inlet.Send | Pipes/Pipes/Models/Lets/Inlet.cs:25-48 | Three outcomes, in the source's order. (1) A connected inlet rejects with InvalidOperation and keeps its queue. (2) With nobody queued and a receiver offered, the message is delivered and nothing is queued. (3) Otherwise a fresh, unsent sender joins the tail behind every queued sender. |
| Lets.Inlet.UseWaitingSender | Pipes/Pipes/Models/Lets/Inlet.cs:114-121 | Removes exactly the head sender, marks it sent and returns its message. The rest of the queue is unchanged and in order. |
| Lets.Inlet.FindSender | Pipes/Pipes/Models/Lets/Inlet.cs:102-107 | A connected inlet delegates to the connected pipe's sender. An unconnected inlet serves its head iff somebody waits, and returns none iff nobody does. |
| Lets.Inlet.ConnectTo | Pipes/Pipes/Models/Lets/Inlet.cs:80-100 | Connecting succeeds iff ReadyToConnect held: no waiting sender and no connected outlet. Success records the outlet. Refusal changes nothing. |
| Lets.Inlet.ResolveWaitAsWritten | Pipes/Pipes/Models/Lets/Inlet.cs:50-72 | The wait resolution as written. A release succeeds. An expired wait fails, withdrawing the sender, iff the sender was not marked sent, and succeeds otherwise. An interrupted wait always fails with ThreadInterrupted, and withdraws the sender only if it was not sent. |
| Lets.Inlet.ResolveWait | Pipes/Pipes/Models/Lets/Inlet.cs:50-72 | The corrected resolution: success iff the message was consumed. A consumed sender is never touched. An unconsumed one is withdrawn and the failure is reported. |
| Lets.InterruptAfterDeliveryAsWritten | Pipes/Pipes/Models/Lets/Inlet.cs:65-70 | Concrete run. A queued sender is served, so its message is delivered and it is marked sent. It is then interrupted, and the send reports ThreadInterrupted. |
| Lets.InterruptAfterDelivery | Pipes/Pipes/Models/Lets/Inlet.cs:54-63 | The same run with the corrected resolution reports success, as the expired-wait path does. |
| SourcePipes.SourcePipe.ConnectableInlets | Pipes/Pipes/Models/Pipes/SourcePipe.cs:17 | A source pipe has no inlets. |
| SourcePipes.SourcePipe.ConnectableOutlets | Pipes/Pipes/Models/Pipes/SourcePipe.cs:17-20 | A source pipe has exactly one outlet, its Outlet. |
| SourcePipes.SourcePipe.FindReceiver | Pipes/Pipes/Models/Pipes/SourcePipe.cs:23-26 | Never offers a receiver, whichever inlet asks. |
| SourcePipes.SourcePipe.FindSender | Pipes/Pipes/Models/Pipes/SourcePipe.cs:28-31 | Always offers its producer, whichever outlet asks. |
| SourcePipes.SourceAlwaysFeedsInlet | Pipes/Pipes/Models/Pipes/SourcePipe.cs:28-31 | An inlet connected to a source's outlet always offers the producer as its sender. |
| SourcePipes.PullFromSourceFed | Pipes/Pipes/Models/Pipes/CapacityPipe.cs:45-56 | The sender callback of a full capacity pipe whose inlet is connected to a source returns the oldest message. It always refills with the producer's message at the tail, so the pipe is full again. |
| Relay.FindReceiverAt | Pipes/Pipes/Models/Pipes/CapacityPipe.cs:25-39 | The receiver probe entering at pipe i and travelling downstream. A buffer it picks lies at or below i and has room. An external receiver it picks is the one offered beyond pipe 0. |
| Relay.FindSenderAt | Pipes/Pipes/Models/Pipes/CapacityPipe.cs:41-60 | The sender probe entering at pipe i and travelling upstream. A pipe it picks lies at or above i and has a non-empty buffer. It falls back to the inlet queue only when that queue is non-empty. |
| Relay.PullAt | Pipes/Pipes/Models/Pipes/CapacityPipe.cs:41-60 | A pull keeps the number of pipes and every capacity. |
| Relay.InvokeAt | Pipes/Pipes/Models/Pipes/CapacityPipe.cs:45-56 | The dequeue-and-refill callback of pipe k keeps the number of pipes and every capacity. |
| Relay.DeliverAt | Pipes/Pipes/Models/Pipes/CapacityPipe.cs:29 | Invoking the receiver a probe handed out. An external receiver leaves the line as it was. A buffer receiver appends the message to its own buffer and to no other. Capacities and waiting senders are kept. A receiver handed out only under the room test keeps every buffer within capacity. |
| Relay.PushSpec | Pipes/Pipes/Models/Pipes/CapacityPipe.cs:25-39 | The last pipe's receiver probe, with the receiver invoked. No receiver: the push is refused and nothing changes. An external receiver is the one offered downstream, and the line is unchanged. A buffer receiver had room and gains the message at its tail. Waiting senders and capacities are kept, and no buffer is overfilled. |
| Relay.SendSpec | Pipes/Pipes/Models/Lets/Inlet.cs:34-45 | Send on the last pipe's inlet. It waits iff senders already wait or no receiver is found, and then joins the tail of the waiting queue with the buffers unchanged. A send handed over at once found nobody waiting. Capacities are kept, and no buffer is overfilled. |
| Relay.FullLineHoldsTotalCapacity | Pipes/Pipes/Models/Pipes/CapacityPipe.cs:62-65 | If no pipe has spare capacity, the buffers hold at least the sum of the positive capacities. |
| Relay.NoRoomHoldsTotalCapacity | Pipes/Pipes/Models/Pipes/CapacityPipe.cs:62-65 | The same fact for a whole line: without room anywhere, the contents reach the total capacity. |
| Relay.FittingLineWithinTotalCapacity | Pipes/Pipes/Models/Pipes/CapacityPipe.cs:62-65 | Buffers that keep their invariant hold at most the total capacity. |
| Relay.RoomBelowTotalCapacity | Pipes/Pipes/Models/Pipes/CapacityPipe.cs:62-65 | If one pipe has room, everything upstream of it is empty, and all buffers keep their invariant, then the line holds less than its total capacity. |
| Relay.SpareMeansBelowTotalCapacity | Pipes/Pipes/Models/Pipes/CapacityPipe.cs:62-65 | In a packed line, room in any pipe means the line holds less than its total capacity. |
| Relay.PullKeepsShape | Pipes/Pipes/Models/Pipes/CapacityPipe.cs:41-60 | A pull from pipe i keeps every buffer within its capacity. It leaves the pipes below i untouched. |
| Relay.InvokeKeepsShape | Pipes/Pipes/Models/Pipes/CapacityPipe.cs:45-56 | The sender callback of pipe k keeps every buffer within its capacity, including the refill. It leaves the pipes below k untouched. |
| Relay.FindSenderAtSkipsEmpty | Pipes/Pipes/Models/Pipes/CapacityPipe.cs:41-60 | On its way to the pipe or queue it picks, the sender probe passes only empty pipes of capacity <= 0. In a packed line, finding nothing means everything from i upstream is empty. |
| Relay.PullFifo | Pipes/Pipes/Models/Pipes/CapacityPipe.cs:41-60 | In a packed line, a pull from pipe i returns the head of everything held from i upstream. The rest is left in order. It returns nothing, and changes nothing, iff that part is empty. Packing is kept. |
| Relay.InvokeFifo | Pipes/Pipes/Models/Pipes/CapacityPipe.cs:45-56 | The callback of a non-empty pipe k returns the head of everything held from k upstream. The rest is left in order, including the refilled message, and packing is kept. |
| Relay.PullHeadOfLine | Pipes/Pipes/Models/Pipes/CapacityPipe.cs:41-60 | A pull from pipe 0 returns the oldest message of the whole line and leaves the others in order. |
| Relay.FullBelowNonEmpty | Pipes/Pipes/Models/Pipes/CapacityPipe.cs:27-30 | In a packed line, every pipe downstream of a non-empty buffer is full. |
| Relay.FindReceiverNoneMeansFull | Pipes/Pipes/Models/Pipes/CapacityPipe.cs:25-39 | If the receiver probe from pipe i finds nothing, no pipe at or below i has room. |
| Relay.FindReceiverBufferShape | Pipes/Pipes/Models/Pipes/CapacityPipe.cs:25-39 | When the probe picks buffer k, every pipe below k is full and every pipe between k and i is empty. The new message therefore goes at the tail of the line. |
| Relay.FindReceiverExternalShape | Pipes/Pipes/Models/Pipes/CapacityPipe.cs:31-34 | The probe forwards beyond pipe 0 only when every buffer on the way is empty. |
| Relay.StoreAppends | Pipes/Pipes/Models/Pipes/CapacityPipe.cs:29 | Storing in the buffer the probe picked appends the message to the line's contents and keeps the line packed. |
| Relay.PushFifo | Pipes/Pipes/Models/Pipes/CapacityPipe.cs:25-39 | A push through the last pipe's receiver probe has three outcomes. Refused: nothing changes and the line already holds its total capacity. Forwarded beyond pipe 0: the line was empty. Buffered: the message is appended at the tail of the contents. Packing and capacities are kept. |
| Relay.PushRefused | Pipes/Pipes/Models/Pipes/CapacityPipe.cs:25-39 | When the receiver probe of a packed line finds nothing, the push changes nothing, and the line already holds its total capacity. |
| Relay.PushForwarded | Pipes/Pipes/Models/Pipes/CapacityPipe.cs:31-34 | When the probe forwards beyond pipe 0, the line is empty, the line is unchanged, and the receiver is the one offered downstream. |
| Relay.PushStored | Pipes/Pipes/Models/Pipes/CapacityPipe.cs:29 | When the probe picks buffer k, the message joins that buffer, the line stays packed, and the message lands at the tail of the contents. |
| Relay.PushBelowCapacityAppends | Pipes/Pipes/Models/Pipes/CapacityPipe.cs:25-39 | With nothing beyond pipe 0, a push into a packed line below its total capacity appends the message to the contents. The line stays packed, keeps its capacities and has nobody waiting. |
| Relay.StrandedBehindRoom | Pipes/Pipes/Models/Lets/Inlet.cs:97-100 | Two pipes filled while apart and then connected form a line that is not packed, since connecting does not look at the buffers. A pull takes pipe 0's message, and the next pull finds nothing (CapacityPipe.cs:59: pipe 0 is empty with positive capacity) while message 2 is still held upstream. The receiver probe keeps offering pipe 1's buffer. |
| Relay.EmptyLineIsPacked | Pipes/Pipes/Models/Pipes/CapacityPipe.cs:18-23 | A line of new pipes with nobody waiting holds nothing and is packed. |
| Relay.SendFifo | Pipes/Pipes/Models/Lets/Inlet.cs:25-48 | A send on the line's inlet either hands the message out of an empty line, or appends it to the contents. It never overtakes a waiting sender. It queues only when the line holds its total capacity. |
| Relay.SendWaitsIffFull | Pipes/Pipes/Models/Lets/Inlet.cs:34-47 | With nothing beyond pipe 0, a send waits iff the line already holds the sum of its pipes' capacities. |
| Relay.SendIntoFullLineWaits | Pipes/Pipes/Models/Lets/Inlet.cs:34-47 | A send into a packed line that holds its total capacity waits. Its message joins the tail of the contents, and the line stays packed. |
| Wiring.ProbeReceiver | Pipes/Pipes/Models/Pipes/CapacityPipe.cs:25-39 | Each pipe's own FindReceiver, chained down the line through its outlet, gives exactly Relay.FindReceiverAt on the line's state. |
| Wiring.ProbeSender | Pipes/Pipes/Models/Pipes/CapacityPipe.cs:41-60 | Each pipe's own FindSender, chained up the line through its inlet and ending at the unconnected inlet's FindSender, gives exactly Relay.FindSenderAt on the line's state. |
| Wiring.DequeueAt | Pipes/Pipes/Models/Pipes/CapacityPipe.cs:47 | Dequeuing from pipe k returns that buffer's oldest message. Only that buffer changes: it loses its head. The wiring invariant is kept. |
| Wiring.AcceptAt | Pipes/Pipes/Models/Pipes/CapacityPipe.cs:29 | Enqueuing into pipe k while it has room appends to that buffer only. The wiring invariant is kept. |
| Wiring.PullFrom | Pipes/Pipes/Models/Pipes/CapacityPipe.cs:41-60 | Running the sender probe of pipe i on the objects returns what Relay.PullAt returns and leaves the state it describes. The wiring invariant is kept. |
| Wiring.InvokeFrom | Pipes/Pipes/Models/Pipes/CapacityPipe.cs:45-56 | The dequeue-and-refill callback on the objects equals Relay.InvokeAt. |
| Wiring.Deliver | Pipes/Pipes/Models/Pipes/CapacityPipe.cs:29 | Calling a receiver the probe handed out equals Relay.DeliverAt. |
| Wiring.Push | Pipes/Pipes/Models/Pipes/CapacityPipe.cs:25-39 | The last pipe's receiver probe plus the receiver call on the objects equals Relay.PushSpec. |
| Wiring.Send | Pipes/Pipes/Models/Lets/Inlet.cs:25-48 | Inlet.Send on the last pipe's inlet, with the pipe's probe as the offer, equals Relay.SendSpec. |
| Wiring.PushOne | Pipes/Pipes/Models/Pipes/CapacityPipe.cs:25-39 | One push on the objects, into a line below its total capacity, appends the message to the contents. Packing and capacities are kept. |
| Wiring.PushAll | Pipes/Pipes.Tests/UnitTests/Models/Pipes/CapacityPipeTests.cs:273-277 | Pushing messages into a line with room for all of them appends them to its contents in order. |
| Wiring.PullHead | Pipes/Pipes/Models/Pipes/CapacityPipe.cs:41-60 | One pull from pipe 0 on the objects returns the head of the contents and leaves the rest in order. Packing is kept, and no new sender is queued. |
| Wiring.PullAll | Pipes/Pipes.Tests/UnitTests/Models/Pipes/CapacityPipeTests.cs:284-289 | n pulls from pipe 0 return the first n messages of the contents in order, and leave the rest. |
| Wiring.SendToFullLine | Pipes/Pipes/Models/Lets/Inlet.cs:34-47 | A send on the objects into a full line returns Queued. It appends the message to the contents and keeps the line packed. |
| Wiring.FillSendDrain | Pipes/Pipes.Tests/UnitTests/Models/Pipes/CapacityPipeTests.cs:260-298 | Fill an empty line to exactly its total capacity: the next send waits. Draining then returns every message in arrival order, the waiting one last. |
| Wiring.TwoPipeLine | Pipes/Pipes.Tests/UnitTests/Models/Pipes/CapacityPipeTests.cs:263-264 | Two new pipes of capacity 2 and 3 and a new inlet form a wired line whose state is two empty buffers, capacities 2 and 3, and nobody waiting. |
| Wiring.ChainRelay | Pipes/Pipes.Tests/UnitTests/Models/Pipes/CapacityPipeTests.cs:260-298 | A capacity-3 pipe feeding a capacity-2 pipe, loaded with 1..5 through the receiver probe. The send of 6 waits, and six pulls from the capacity-2 pipe yield exactly 1, 2, 3, 4, 5, 6. |

## Left out

- Locks, semaphores and threads are not modelled: `Lock`, `Unlock`, `LockWith`, `WaitOne`, `Release`, thread interruption. Each locked region is one atomic method. The end of a blocked sender's wait is the input `WaitOutcome`, and the blocking itself is not modelled.
- Callbacks are not modelled as closures. A probe returns a tag (`Receiver`, `Sender`, `Target`, `PullOrigin`), and the model invokes the callback at once. A callback kept and invoked later, after the pipe's state changed, is not captured.
- The receiver beyond the most downstream pipe and the sender behind an inlet are optional inputs. What an external receiver does with a message is outside the model.
- The source pipe's producer is never invoked. `P` is an opaque value.
- `Let.Connect`, `Let.Disconnect` and the cycle check are not part of this model; their bodies are in `Let.cs`. `ConnectTo` models only the `ReadyToConnect` guard and the recorded connection. `DisconnectFrom` is left out.
- `Wiring` fixes the connections. It covers a straight line of capacity pipes whose last inlet is unconnected and whose first outlet offers an optional receiver. Other topologies are left out.
- `TwoInletPipe`, the builders (probability checks in floating point, random tie-breakers), either-inlet and either-outlet pipes, tie-breakers and the graph exporter are not part of this model.
- The timed `Send(message, timeout)` and its argument check are left out. They appear only in the tests (Pipes/Pipes.Tests/UnitTests/Models/Lets/SimpleInletTests.cs:272-278), not in `Inlet.cs`. The timed wait's expiry is the `Expired` outcome.
- The wait is resolved through a thrown exception in the source. Here it is an `Outcome`. The second removal that the catch block performs after an expired wait is modelled (it changes nothing).
- `Capacity` is a C# `int`. The model uses an unbounded `int`. The only arithmetic, `Capacity - 1` in the refill test, is reached only with a non-empty buffer, which requires `Capacity >= 1`, so it cannot wrap.
- SourcePipes.SourcePipe.ConnectableInlets: states only that there are none. The base class `SimplePipe` that turns constructor arguments into connectable lets is not part of this model.
- The FIFO and capacity results of `Relay` and `Wiring` require `Packed`, so they hold only for lines wired while empty (or brought there by their own pushes and pulls). `ReadyToConnect` (Inlet.cs:97-100) does not look at the pipe's buffer, so pipes filled before they are connected can form a line that is not packed. In such a line a message can stay stranded behind an empty pipe with room; `Relay.StrandedBehindRoom` exhibits one. What such lines do over time is not modelled.
- `CapacityPipe.InvokeSender` is not called by `Wiring`: its upstream message is a parameter, while on a line it comes from a pull on the other pipes between the dequeue and the refill. `Wiring.InvokeFrom` runs the same steps (`Dequeue`, `NeedsRefill`, `Accept`) on the objects.
- Relay.PullAt and Relay.InvokeAt: their own contracts state only that shape is preserved. What they return is stated by Relay.PullFifo and Relay.InvokeFifo.

## Findings

| source | as written | input that shows it | evidently intended | confidence | as-written member | corrected member |
|---|---|---|---|---|---|---|
| Pipes/Pipes/Models/Lets/Inlet.cs:65-70 | An exception thrown while waiting, such as an interrupt, always rethrows. This happens even when `MessageSent` is already true, that is, when a receiver has consumed the message. | A sender queues message 7 on an unconnected inlet. A pull serves it through `UseWaitingSender`, so the message is delivered and marked sent. The sender's thread is then interrupted before it leaves the wait. | As on the expired-wait path (lines 54-63): a consumed message counts as sent, so the send succeeds and no message is both delivered and reported lost. | medium; not executed | Lets.InterruptAfterDeliveryAsWritten | Lets.Inlet.ResolveWait |
