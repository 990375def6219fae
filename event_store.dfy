/**
 * `InMemoryEventStore`: a list of events that only grows, read back filtered by
 * the runtime type of the event.
 */
module EventStore {
  import opened Domain

  /**
   * `OfType<T>()` for one event type: the events of that type, in list order. Every
   * event it yields has the requested type, and it never yields more than are stored.
   */
  function OfType(events: seq<Event>, t: EventType): (r: seq<Event>)
    ensures |r| <= |events|
    ensures forall k :: 0 <= k < |r| ==> r[k].Type() == t
    decreases |events|
  {
    if events == [] then []
    else
      var last := events[|events| - 1];
      OfType(events[..|events| - 1], t) + (if last.Type() == t then [last] else [])
  }

  /** The filter keeps exactly the events of the type: nothing else, nothing missed. */
  lemma {:induction false} OfTypeMeaning(events: seq<Event>, t: EventType, e: Event)
    ensures e in OfType(events, t) <==> e in events && e.Type() == t
    decreases |events|
  {
    if events != [] {
      var init := events[..|events| - 1];
      OfTypeMeaning(init, t, e);
      assert events == init + [events[|events| - 1]];
    }
  }

  /**
   * The filter distributes over concatenation, so it keeps the insertion order:
   * what was saved earlier is read earlier.
   */
  lemma {:induction false} OfTypeAppend(a: seq<Event>, b: seq<Event>, t: EventType)
    ensures OfType(a + b, t) == OfType(a, t) + OfType(b, t)
    decreases |b|
  {
    if b == [] {
      assert a + b == a;
    } else {
      var b' := b[..|b| - 1];
      assert (a + b)[..|a + b| - 1] == a + b';
      OfTypeAppend(a, b', t);
    }
  }

  /**
   * After saving an event, reading its type returns what it returned before
   * followed by that event; reading any other type returns what it did before.
   */
  lemma SaveThenGet(before: seq<Event>, e: Event, t: EventType)
    ensures OfType(before + [e], t) == OfType(before, t) + (if e.Type() == t then [e] else [])
    ensures e.Type() == t ==> e in OfType(before + [e], t)
  {
    OfTypeAppend(before, [e], t);
    assert OfType([e], t) == OfType([], t) + (if e.Type() == t then [e] else []);
  }

  class InMemoryEventStore {
    var events: seq<Event>

    constructor ()
      ensures events == []
    {
      events := [];
    }

    /** Appends the event; the events already stored stay as they were. */
    method SaveEventAsync(e: Event)
      modifies this
      ensures events == old(events) + [e]
    {
      events := events + [e];
    }

    /** The stored events of one type, in the order they were saved. Reading changes nothing. */
    function GetEventsAsync(t: EventType): (r: seq<Event>)
      reads this
      ensures forall e :: e in r <==> e in events && e.Type() == t
      ensures |r| <= |events|
    {
      forall e ensures e in OfType(events, t) <==> e in events && e.Type() == t {
        OfTypeMeaning(events, t, e);
      }
      OfType(events, t)
    }
  }
}
