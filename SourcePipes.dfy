/**
 * The source pipe of Pipes/Pipes/Models/Pipes/SourcePipe.cs: no inlets, one
 * outlet, and a message producer that every pull from the outlet calls.
 * Its properties are set once by the constructor, so it is a value here.
 * `P` stands for the producer `Func<TMessage>`; calling it is outside the model.
 */
module SourcePipes {
  import opened Wrappers
  import opened Lets
  import opened CapacityPipes

  datatype SourcePipe<P> = SourcePipe(outlet: OutletRef, messageProducer: P) {

    function ConnectableInlets(): (r: seq<InletRef>)
      ensures |r| == 0
    {
      []
    }

    function ConnectableOutlets(): (r: seq<OutletRef>)
      ensures |r| == 1 && r[0] == outlet
    {
      [outlet]
    }

    /** There is nothing to push into a source. */
    function FindReceiver<R>(inletSendingMessage: InletRef): (r: Option<R>)
      ensures r == None
    {
      None
    }

    /** Every pull is served by the producer, whichever outlet asks. */
    function FindSender(outletReceivingMessage: OutletRef): (r: Option<P>)
      ensures r == Some(messageProducer)
    {
      Some(messageProducer)
    }
  }

  /**
   * An inlet connected to a source's outlet always has a sender to offer: the
   * source's producer.
   */
  lemma SourceAlwaysFeedsInlet<T, P>(source: SourcePipe<P>, inlet: Inlet<T>, asking: OutletRef)
    requires inlet.connectedOutlet == Some(source.outlet)
    ensures inlet.FindSender(source.FindSender(asking)) == Some(Delegated(source.messageProducer))
  {
  }

  /**
   * The sender callback of a full capacity pipe whose inlet is connected to a
   * source: the inlet offers the producer, so the pipe always refills and is
   * full again.  `produced` is what the producer returns when called.
   */
  method PullFromSourceFed<T, P>(pipe: CapacityPipe<T>, inlet: Inlet<T>, source: SourcePipe<P>, asking: OutletRef, produced: T)
    returns (message: T)
    requires pipe.Valid() && pipe.stored != [] && |pipe.stored| == pipe.Capacity
    requires inlet.connectedOutlet == Some(source.outlet)
    modifies pipe
    ensures pipe.Valid()
    ensures message == old(pipe.stored)[0]
    ensures pipe.stored == old(pipe.stored)[1..] + [produced] && |pipe.stored| == pipe.Capacity
  {
    var upstream: Option<T> :=
      match inlet.FindSender(source.FindSender(asking))
      case Some(Delegated(_)) => Some(produced)
      case _ => None;
    var refilled;
    message, refilled := pipe.InvokeSender(upstream);
  }
}
