/**
 * `IEventPublisher` as the handlers see it: every event handed to it is either
 * published, in call order, or the call raises.
 */
module Messaging {
  import opened Common
  import opened Domain

  class EventPublisher {
    /** The events published so far, oldest first. */
    var published: seq<Event>

    constructor ()
      ensures published == []
    {
      published := [];
    }

    /** Publishes one event; `fault` is the exception the message bus raises, if any. */
    method PublishAsync(e: Event, fault: Option<string>) returns (raised: Option<string>)
      modifies this
      ensures raised == fault
      ensures published == old(published) + (if fault.None? then [e] else [])
    {
      raised := fault;
      if fault.None? {
        published := published + [e];
      } else {
        assert published == published + [];
      }
    }
  }
}
