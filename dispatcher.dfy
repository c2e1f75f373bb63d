/**
 * The event dispatcher of illuminate/events: a registry mapping each event
 * name to the ordered list of its listeners, with `Listen` (append a callable
 * listener) and `Fire` (call every listener of an event, in registration
 * order, with the same payload, and collect the return values).
 */
module Events {

  /**
   * The parts of the PHP runtime the dispatcher relies on but does not
   * implement: `is_callable` decides whether a value may be registered, and
   * `call_user_func_array` calls a listener with the payload spread as its
   * positional arguments. Both are taken as given, pure functions.
   */
  datatype Runtime<!L, !V> = Runtime(isCallable: L -> bool, callUserFuncArray: (L, seq<V>) -> V)

  /** What `Listen` reports: success, or the `InvalidArgumentException` it throws. */
  datatype Outcome = Ok | InvalidArgument(message: string)

  const NotCallableMessage: string := "Event listener must be callable."

  /**
   * The responses `fire` collects for the listeners `ls` and the payload:
   * the first listener's result, then the responses of the rest.
   */
  function Responses<L, V>(rt: Runtime<L, V>, ls: seq<L>, payload: seq<V>): (r: seq<V>)
    ensures |r| == |ls|
  {
    if ls == [] then [] else [rt.callUserFuncArray(ls[0], payload)] + Responses(rt, ls[1..], payload)
  }

  /** Response number `k` is the result of the `k`-th listener on the same payload. */
  lemma {:induction false} ResponsesAt<L, V>(rt: Runtime<L, V>, ls: seq<L>, payload: seq<V>, k: nat)
    requires k < |ls|
    ensures Responses(rt, ls, payload)[k] == rt.callUserFuncArray(ls[k], payload)
  {
    if k > 0 {
      ResponsesAt(rt, ls[1..], payload, k - 1);
    }
  }

  /** Registering one more listener adds exactly its result at the end of the responses. */
  lemma {:induction false} ResponsesSnoc<L, V>(rt: Runtime<L, V>, ls: seq<L>, l: L, payload: seq<V>)
    ensures Responses(rt, ls + [l], payload) == Responses(rt, ls, payload) + [rt.callUserFuncArray(l, payload)]
  {
    if ls != [] {
      assert (ls + [l])[1..] == ls[1..] + [l];
      ResponsesSnoc(rt, ls[1..], l, payload);
    } else {
      assert ls + [l] == [l];
    }
  }

  class Dispatcher<L, V> {
    /** The PHP runtime services the dispatcher calls out to. */
    const rt: Runtime<L, V>

    /** All of the registered events: event name to its listeners, in registration order. */
    var events: map<string, seq<L>>

    /** Every listener in the registry passed the `is_callable` check when it was registered. */
    ghost predicate Valid()
      reads this
    {
      forall e, i :: e in events && 0 <= i < |events[e]| ==> rt.isCallable(events[e][i])
    }

    /** The listeners of `event`; an event that was never listened to has none. */
    function ListenersFor(event: string): seq<L>
      reads this
    {
      if event in events then events[event] else []
    }

    constructor (rt: Runtime<L, V>)
      ensures this.rt == rt
      ensures events == map[]
      ensures Valid()
    {
      this.rt := rt;
      events := map[];
    }

    /**
     * Registers `listener` for `event`. A value that is not callable is
     * refused before anything is written; otherwise it goes at the end of the
     * event's list and every other event keeps its listeners.
     */
    method Listen(event: string, listener: L) returns (outcome: Outcome)
      requires Valid()
      modifies this
      ensures Valid()
      ensures outcome == if rt.isCallable(listener) then Ok else InvalidArgument(NotCallableMessage)
      ensures outcome.InvalidArgument? ==> events == old(events)
      ensures outcome.Ok? ==> events == old(events)[event := old(ListenersFor(event)) + [listener]]
      ensures outcome.Ok? ==> events.Keys == old(events.Keys) + {event}
      ensures forall e :: e != event ==> ListenersFor(e) == old(ListenersFor(e))
    {
      if !rt.isCallable(listener) {
        return InvalidArgument(NotCallableMessage);
      }
      events := events[event := ListenersFor(event) + [listener]];
      outcome := Ok;
    }

    /**
     * Fires `event`: calls each of its listeners, in registration order, with
     * the same payload, and returns every result, in that order. The registry
     * is only read (the method has no `modifies` clause).
     */
    method Fire(event: string, payload: seq<V> := []) returns (responses: seq<V>)
      ensures responses == Responses(rt, ListenersFor(event), payload)
      ensures |responses| == |ListenersFor(event)|
      ensures forall k :: 0 <= k < |responses| ==>
                responses[k] == rt.callUserFuncArray(ListenersFor(event)[k], payload)
      ensures event !in events ==> responses == []
    {
      var listeners := ListenersFor(event);
      responses := [];
      var i := 0;
      while i < |listeners|
        invariant 0 <= i <= |listeners|
        invariant responses == Responses(rt, listeners[..i], payload)
      {
        assert listeners[..i + 1] == listeners[..i] + [listeners[i]];
        ResponsesSnoc(rt, listeners[..i], listeners[i], payload);
        responses := responses + [rt.callUserFuncArray(listeners[i], payload)];
        i := i + 1;
      }
      assert listeners[..i] == listeners;
      forall k | 0 <= k < |responses|
        ensures responses[k] == rt.callUserFuncArray(listeners[k], payload)
      {
        ResponsesAt(rt, listeners, payload, k);
      }
    }
  }
}
