/**
 * Clients of the dispatcher that state, from its contracts alone, what the
 * repository's dispatcher test checks and how `Listen` and `Fire` compose.
 */
module DispatcherTest {
  import opened Events

  /** A closure of the test: it takes no arguments and returns a fixed string. */
  datatype Closure = Returns(value: string)

  /** The runtime of the test: every closure is callable, and calling one yields its fixed value whatever the arguments. */
  function TestRuntime(): Runtime<Closure, string>
  {
    Runtime(c => true, (c: Closure, args: seq<string>) => c.value)
  }

  /**
   * Two listeners on "foo" returning 'bar' then 'baz'; firing "foo" without
   * a payload gives exactly two responses, 'bar' then 'baz'.
   */
  method BasicEventFiring() returns (responses: seq<string>)
    ensures |responses| == 2
    ensures responses == ["bar", "baz"]
  {
    var e := new Dispatcher(TestRuntime());
    var o1 := e.Listen("foo", Returns("bar"));
    var o2 := e.Listen("foo", Returns("baz"));
    assert e.ListenersFor("foo") == [Returns("bar"), Returns("baz")];
    responses := e.Fire("foo");
  }

  /**
   * After a successful `Listen(event, listener)`, firing `event` gives the
   * responses it gave before, followed by the new listener's result; an
   * unsuccessful one leaves them as they were.
   */
  method ListenThenFire<L, V>(d: Dispatcher<L, V>, event: string, listener: L, payload: seq<V>)
    returns (before: seq<V>, outcome: Outcome, after: seq<V>)
    requires d.Valid()
    modifies d
    ensures d.Valid()
    ensures outcome.Ok? ==> after == before + [d.rt.callUserFuncArray(listener, payload)]
    ensures outcome.InvalidArgument? ==> after == before
  {
    before := d.Fire(event, payload);
    outcome := d.Listen(event, listener);
    after := d.Fire(event, payload);
    if outcome.Ok? {
      ResponsesSnoc(d.rt, old(d.ListenersFor(event)), listener, payload);
    }
  }
}
