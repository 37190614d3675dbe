/**
 * The part of Node's `EventEmitter` that a DOM node relies on: a registry from
 * event name to the ordered list of callbacks registered for it, `on`, which
 * appends without deduplication, and `emit`, which invokes the list in order,
 * synchronously, with one payload.
 *
 * Callbacks are opaque: a callback is an id, and invoking it is recorded as an
 * `Invocation` of that id with the payload it received.
 */
module Emitter {

  /** An opaque callback, known only by its identity. */
  type CallbackId = nat

  /** One call of a callback with the payload it was given. */
  datatype Invocation<P> = Invocation(callback: CallbackId, payload: P)

  /** The callbacks registered for `event`; an event never registered has none. */
  function Lookup(registry: map<string, seq<CallbackId>>, event: string): seq<CallbackId>
  {
    if event in registry then registry[event] else []
  }

  /** The registry after `on(event, fn)`: `fn` is appended to the list of `event` only. */
  function Register(registry: map<string, seq<CallbackId>>, event: string, fn: CallbackId)
    : (r: map<string, seq<CallbackId>>)
    ensures Lookup(r, event) == Lookup(registry, event) + [fn]
    ensures forall other :: other != event ==> Lookup(r, other) == Lookup(registry, other)
    ensures r.Keys == registry.Keys + {event}
  {
    registry[event := Lookup(registry, event) + [fn]]
  }

  /** What invoking `callbacks` in order with `payload` records. */
  function Deliver<P>(callbacks: seq<CallbackId>, payload: P): (r: seq<Invocation<P>>)
    ensures |r| == |callbacks|
    ensures forall i :: 0 <= i < |r| ==> r[i] == Invocation(callbacks[i], payload)
  {
    seq(|callbacks|, i requires 0 <= i < |callbacks| => Invocation(callbacks[i], payload))
  }

  /** How many invocations in `trace` call `fn`. */
  function Calls<P>(trace: seq<Invocation<P>>, fn: CallbackId): nat
  {
    if trace == [] then 0
    else Calls(trace[..|trace| - 1], fn) + (if trace[|trace| - 1].callback == fn then 1 else 0)
  }

  /** How many times `fn` occurs in `callbacks`. */
  function Occurrences(callbacks: seq<CallbackId>, fn: CallbackId): nat
  {
    if callbacks == [] then 0
    else Occurrences(callbacks[..|callbacks| - 1], fn) + (if callbacks[|callbacks| - 1] == fn then 1 else 0)
  }

  /** Delivering a list calls each callback once per registration: no deduplication. */
  lemma {:induction false} DeliverCallsEachRegistration<P>(callbacks: seq<CallbackId>, payload: P, fn: CallbackId)
    ensures Calls(Deliver(callbacks, payload), fn) == Occurrences(callbacks, fn)
  {
    if callbacks != [] {
      var init := callbacks[..|callbacks| - 1];
      DeliverCallsEachRegistration(init, payload, fn);
      assert Deliver(callbacks, payload)[..|callbacks| - 1] == Deliver(init, payload);
    }
  }

  /**
   * Registering the same callback twice for an event makes one delivery of that
   * event call it two more times than before.
   */
  lemma RegisterTwiceCallsTwice<P>(registry: map<string, seq<CallbackId>>, event: string, fn: CallbackId, payload: P)
    ensures var twice := Register(Register(registry, event, fn), event, fn);
            Calls(Deliver(Lookup(twice, event), payload), fn)
            == Calls(Deliver(Lookup(registry, event), payload), fn) + 2
  {
    var before := Lookup(registry, event);
    var once := before + [fn];
    var after := once + [fn];
    assert Lookup(Register(Register(registry, event, fn), event, fn), event) == after;
    assert after[..|after| - 1] == once;
    assert once[..|once| - 1] == before;
    DeliverCallsEachRegistration(after, payload, fn);
    DeliverCallsEachRegistration(before, payload, fn);
  }

  /** A node's private `EventEmitter`: the only state in the composite that changes. */
  class EventEmitter {
    var listeners: map<string, seq<CallbackId>>

    /** `new EventEmitter()`: no listeners. */
    constructor ()
      ensures listeners == map[]
    {
      listeners := map[];
    }

    /** The callbacks currently registered for `event`, in registration order. */
    function Listeners(event: string): seq<CallbackId>
      reads this
    {
      Lookup(listeners, event)
    }

    /** `emitter.on(event, fn)`: appends `fn`; every other event keeps its list. */
    method On(event: string, fn: CallbackId)
      modifies this
      ensures listeners == Register(old(listeners), event, fn)
    {
      listeners := Register(listeners, event, fn);
    }

    /**
     * `emitter.emit(event, payload)`: calls every listener of `event` in
     * registration order with the same payload; the result says whether there
     * was any listener. No listener is a no-op, not an error.
     */
    method Emit<P>(event: string, payload: P) returns (hadListeners: bool, fired: seq<Invocation<P>>)
      ensures hadListeners <==> Listeners(event) != []
      ensures fired == Deliver(Listeners(event), payload)
    {
      var callbacks := Lookup(listeners, event);
      fired := [];
      var i := 0;
      while i < |callbacks|
        invariant 0 <= i <= |callbacks|
        invariant fired == Deliver(callbacks[..i], payload)
      {
        fired := fired + [Invocation(callbacks[i], payload)];
        i := i + 1;
      }
      assert callbacks[..i] == callbacks;
      hadListeners := |callbacks| > 0;
    }
  }
}
