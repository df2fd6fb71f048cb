/** The application's event bus: a dictionary from event names to the
    callbacks registered for them, in registration order. A callback is
    known by its identity only, so it is modelled as a number; calling it is
    recorded, not performed. */
module Events {
  import Seqs

  type Callback = nat

  type Registry = map<string, seq<Callback>>

  /** The callbacks registered for `event`; an event never registered has none. */
  function Listeners(events: Registry, event: string): seq<Callback>
  {
    if event in events then events[event] else []
  }

  /** `on`: the callback joins the end of the event's list, which is created
      when missing; a callback registered twice is listed twice. */
  function Registered(events: Registry, event: string, callback: Callback): (r: Registry)
    ensures event in r && Listeners(r, event) == Listeners(events, event) + [callback]
    ensures r.Keys == events.Keys + {event}
    ensures forall other :: other != event ==> Listeners(r, other) == Listeners(events, other)
  {
    events[event := Listeners(events, event) + [callback]]
  }

  function Other(callback: Callback): Callback -> bool
  {
    (cb: Callback) => cb != callback
  }

  /** `off`: every registration of the callback is dropped and the rest keep
      their order; an event without a list is left alone. */
  function Unregistered(events: Registry, event: string, callback: Callback): (r: Registry)
    ensures event !in events ==> r == events
    ensures r.Keys == events.Keys
    ensures Listeners(r, event) == Seqs.Filter(Listeners(events, event), Other(callback))
    ensures forall other :: other != event ==> Listeners(r, other) == Listeners(events, other)
  {
    if event !in events then events
    else events[event := Seqs.Filter(events[event], Other(callback))]
  }

  /** After `off` the callback is gone, the others all remain, in order. */
  lemma OffRemovesAll(events: Registry, event: string, callback: Callback)
    ensures callback !in Listeners(Unregistered(events, event, callback), event)
    ensures forall cb :: cb in Listeners(Unregistered(events, event, callback), event)
                         <==> cb in Listeners(events, event) && cb != callback
    ensures Seqs.SubseqOf(Listeners(Unregistered(events, event, callback), event), Listeners(events, event))
  {
    var before := Listeners(events, event);
    var after := Listeners(Unregistered(events, event, callback), event);
    Seqs.FilterSubseq(before, Other(callback));
    forall cb ensures cb in after <==> cb in before && cb != callback {
      if cb in before && cb != callback {
        var k :| 0 <= k < |before| && before[k] == cb;
        assert Other(callback)(before[k]);
      }
      if cb in after {
        var k :| 0 <= k < |after| && after[k] == cb;
      }
    }
  }

  /** Registering a new callback and unregistering it again leaves every
      event's list as it was; only an empty list may have been added. */
  lemma OnThenOff(events: Registry, event: string, callback: Callback)
    requires callback !in Listeners(events, event)
    ensures forall e :: Listeners(Unregistered(Registered(events, event, callback), event, callback), e) == Listeners(events, e)
    ensures Unregistered(Registered(events, event, callback), event, callback).Keys == events.Keys + {event}
  {
    var before := Listeners(events, event);
    var r := Unregistered(Registered(events, event, callback), event, callback);
    Seqs.FilterAppend(before, [callback], Other(callback));
    Seqs.FilterAll(before, Other(callback));
    assert Seqs.Filter([callback], Other(callback)) == [] by {
      Seqs.FilterCons(callback, [], Other(callback));
    }
    assert Listeners(r, event) == before;
  }

  class EventEmitter {
    var events: Registry

    constructor()
      ensures events == map[]
    {
      events := map[];
    }

    method On(event: string, callback: Callback)
      modifies this
      ensures events == Registered(old(events), event, callback)
    {
      if event !in events {
        events := events[event := []];
      }
      events := events[event := events[event] + [callback]];
    }

    method Off(event: string, callback: Callback)
      modifies this
      ensures events == Unregistered(old(events), event, callback)
    {
      if event !in events {
        return;
      }
      events := events[event := Seqs.Filter(events[event], Other(callback))];
    }

    /** `emit`: each registered callback is called once per registration, in
        registration order; `calls` lists the calls made. */
    method Emit(event: string) returns (calls: seq<Callback>)
      ensures calls == Listeners(events, event)
    {
      calls := [];
      if event !in events {
        return;
      }
      var list := events[event];
      var i := 0;
      while i < |list|
        invariant 0 <= i <= |list|
        invariant calls == list[..i]
      {
        calls := calls + [list[i]];
        i := i + 1;
      }
      assert list[..|list|] == list;
    }
  }
}
