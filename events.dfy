/** `EventBus` (src/events.hpp, src/events.cpp): a table from event names to handlers. */
module Events {
  /**
   * A `std::function<void()>`: empty, or holding a callable, which is identified by an opaque token.
   */
  datatype Handler = NoHandler | Handler(token: nat)

  /** The table after `Trigger(event)`: `operator[]` inserts an empty handler for an unknown name and changes nothing else. */
  function AfterTrigger(events: map<string, Handler>, event: string): (r: map<string, Handler>)
    ensures r.Keys == events.Keys + {event}
    ensures forall name :: name in events ==> r[name] == events[name]
    ensures event !in events ==> r[event] == NoHandler
  {
    if event in events then events else events[event := NoHandler]
  }

  /** The calls `Trigger(event)` makes: the stored handler once if it is non-empty, otherwise none. */
  function Fired(events: map<string, Handler>, event: string): (calls: seq<nat>)
    ensures |calls| <= 1
    ensures calls != [] <==> event in events && events[event].Handler?
    ensures calls != [] ==> calls == [events[event].token]
  {
    if event in events && events[event].Handler? then [events[event].token] else []
  }

  /** Triggering twice leaves the same table as triggering once, and fires the same handler again. */
  lemma TriggerTwice(events: map<string, Handler>, event: string)
    ensures AfterTrigger(AfterTrigger(events, event), event) == AfterTrigger(events, event)
    ensures Fired(AfterTrigger(events, event), event) == Fired(events, event)
  {
  }

  /** `Add(n, h)` then `Trigger(n)` fires exactly `h`, the last handler registered under `n`. */
  lemma AddThenTrigger(events: map<string, Handler>, event: string, h: Handler, g: Handler)
    ensures Fired(events[event := g][event := h], event) == if h.Handler? then [h.token] else []
  {
  }

  class EventBus {
    var events: map<string, Handler>
    /** Every handler call so far, in order. */
    var invoked: seq<nat>

    constructor ()
      ensures events == map[] && invoked == []
    {
      events := map[];
      invoked := [];
    }

    /** `Add(event, handler)`: the name now maps to the handler, replacing any earlier one. */
    method Add(event: string, handler: Handler)
      modifies this
      ensures events == old(events)[event := handler]
      ensures forall name :: name in old(events) && name != event ==> events[name] == old(events)[name]
      ensures invoked == old(invoked)
    {
      events := events[event := handler];
    }

    /** `Trigger(event)`: looks the name up with `operator[]` and calls the handler when it is non-empty. */
    method Trigger(event: string)
      modifies this
      ensures events == AfterTrigger(old(events), event)
      ensures invoked == old(invoked) + Fired(old(events), event)
    {
      if event !in events {
        events := events[event := NoHandler];
      }
      var fn := events[event];
      if fn.Handler? {
        invoked := invoked + [fn.token];
      }
    }
  }
}
