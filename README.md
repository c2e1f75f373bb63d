# illuminate/events: the event dispatcher

This project models the event `Dispatcher` of illuminate/events in Dafny, in
the early revision where it has only two operations.

- The registry `$events` maps each event name to its listeners, in the order
  they were registered.
- `listen($event, $callable)` refuses a value that `is_callable` rejects by
  throwing `InvalidArgumentException("Event listener must be callable.")`.
  Otherwise it appends the value to the event's list.
- `fire($event, $payload = array())` calls every listener of the event, in
  registration order, with the same payload spread as positional arguments.
  It returns all the results, nulls included, in that order.

`dispatcher.dfy` (module `Events`) holds the model:

- `Runtime` stands for the two PHP runtime services the class calls out to,
  `is_callable` and `call_user_func_array`, as pure functions.
- The class `Dispatcher` keeps the registry as a field
  `events: map<string, seq<L>>`.
  - `Listen` changes that field.
  - `Fire` only reads it. It has no `modifies` clause, so Dafny checks that it
    changes nothing.
  - `ListenersFor` reads an event's list from the registry. It reads an
    event that was never listened to as the empty list.
  - The object invariant `Valid()` says that every stored listener is
    callable.
  - `Listen` returns an `Outcome`. The exception path becomes
    `InvalidArgument(message)`.
- `Responses` is the reference definition of what firing collects: the first
  listener's result, then the responses of the rest. `Fire` builds its result
  in a loop, as the `foreach` does, and is proved equal to `Responses`.

`dispatcher_test.dfy` (module `DispatcherTest`) holds clients:

- `TestRuntime` stands for the test's closures. Each one is callable, ignores
  its arguments and returns a fixed string.
- `BasicEventFiring` is the repository's basic firing test.
- `ListenThenFire` shows how the two operations compose.

The runtime is a constructor argument of `Dispatcher`. PHP's `new Dispatcher`
takes none, because there the runtime is global. Fixing the runtime is what
lets the invariant "every stored listener is callable" name one `is_callable`.

## Model

| member | source | states |
|---|---|---|
| `Events.Dispatcher.constructor` | src/Illuminate/Events/Dispatcher.php:10 | the registry starts empty, and the invariant holds |
| `Events.Dispatcher.Listen` | src/Illuminate/Events/Dispatcher.php:19-27 | fails with `InvalidArgument("Event listener must be callable.")` exactly when the listener is not callable, and then leaves the registry exactly as it was; otherwise the event's list becomes its old list (empty if absent) followed by the listener, and no other event's list changes; every stored listener stays callable |
| `Events.Dispatcher.Fire` | src/Illuminate/Events/Dispatcher.php:36-46 | returns one response per registered listener, in registration order: response `k` is listener `k` called with the same payload; an unregistered event gives no responses; the payload defaults to the empty sequence; the registry is not modified |
| `Events.Responses` | src/Illuminate/Events/Dispatcher.php:38-45 | the collected responses have exactly as many entries as there are listeners |
| `Events.ResponsesAt` | src/Illuminate/Events/Dispatcher.php:40-43 | response `k` is the `k`-th listener's result on the payload shared by all listeners |
| `Events.ResponsesSnoc` | src/Illuminate/Events/Dispatcher.php:26-45 | one listener appended at the end adds exactly its result at the end of the responses, and the earlier responses stay unchanged |
| `DispatcherTest.BasicEventFiring` | tests/DispatcherTest.php:7-23 | two listeners on "foo" returning 'bar' then 'baz', fired without a payload, give exactly the two responses 'bar', 'baz' |
| `DispatcherTest.ListenThenFire` | src/Illuminate/Events/Dispatcher.php:19-46 | after a successful listen, firing the event gives the earlier responses followed by the new listener's result; after a refused one, the same responses as before |

## Left out

- What listeners do is not modelled: their side effects, the exceptions they
  throw, and any call they make back into the dispatcher. A listener is an
  opaque value. Calling it is a pure function of the listener and the
  payload, supplied by `Runtime`.
- `is_callable` is not modelled. PHP decides it at run time from the value:
  closures, function names, and `[object, method]` pairs. Here it is a pure
  predicate supplied by `Runtime`, fixed for the dispatcher's lifetime.
- Firing an event that has no listeners: PHP reads a missing key at line 40.
  It raises a notice and a foreach warning, then iterates nothing.
  `ListenersFor` reads the missing key as the empty list, so `Fire` gives no
  responses. The diagnostics are not modelled.
- PHP array-key coercion of event names (for example, an integer event name
  and its decimal string share an entry) is not modelled. Event names are
  strings.
- The payload is a PHP array. The model takes it as the sequence of its
  values, which `call_user_func_array` spreads as positional arguments. Its
  keys are not modelled.
- `src/Illuminate/Events/Subscriber.php` and
  `src/Illuminate/Events/EventServiceProvider.php` are not part of this
  model. They hold no dispatcher behaviour: one is an empty subscription list
  and the other is framework wiring.
- The `first` method and halting on the first non-null result are not
  modelled. `tests/DispatcherTest.php:26-45` uses them, but this revision of
  `Dispatcher.php` has no `first` method. Wildcard listeners, `override`,
  `queue`, `flush` and `flusher` are absent too.
