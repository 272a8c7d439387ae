/**
 * What `publish` does with the resolved notification handlers: for each one,
 * in order, the notification handler factory is called and the new handler's
 * `handle` is awaited. An exception raised by a handler leaves the loop, so the
 * handlers after it are neither instantiated nor called.
 *
 * `Delivered` is the flat description that the loop of `Mediator.Publish` is
 * proved against.
 */
module Fanout {
  import opened Wrappers
  import opened Messages

  /** Instantiating and calling each handler, in order. */
  function Calls(handlers: seq<NotificationHandlerClass>): (r: seq<Event>)
    ensures |r| == 2 * |handlers|
    ensures forall i :: 0 <= i < |handlers| ==>
      r[2 * i] == CreateNotificationHandler(handlers[i]) && r[2 * i + 1] == HandleNotification(handlers[i])
  {
    if handlers == [] then []
    else [CreateNotificationHandler(handlers[0]), HandleNotification(handlers[0])] + Calls(handlers[1..])
  }

  /** The index of the first handler whose `handle` raises, or |handlers|. */
  function FirstFault(handlers: seq<NotificationHandlerClass>): (j: nat)
    ensures j <= |handlers|
    ensures forall i :: 0 <= i < j ==> handlers[i].raises.None?
    ensures j < |handlers| ==> handlers[j].raises.Some?
  {
    if handlers == [] || handlers[0].raises.Some? then 0
    else 1 + FirstFault(handlers[1..])
  }

  /** The run of the loop over `handlers`: every handler up to the first that raises. */
  function Delivered(handlers: seq<NotificationHandlerClass>): Run {
    var j := FirstFault(handlers);
    if j == |handlers| then Run(Calls(handlers), Returned(NoneValue))
    else Run(Calls(handlers[..j + 1]), Raised(handlers[j].raises.value))
  }

  /** The handlers the notification handler factory was called with, in order. */
  function Created(trace: seq<Event>): seq<NotificationHandlerClass> {
    if trace == [] then []
    else (if trace[0].CreateNotificationHandler? then [trace[0].notificationHandler] else []) + Created(trace[1..])
  }

  /** The handlers whose `handle` was called, in order. */
  function Notified(trace: seq<Event>): seq<NotificationHandlerClass> {
    if trace == [] then []
    else (if trace[0].HandleNotification? then [trace[0].notificationHandler] else []) + Notified(trace[1..])
  }

  lemma {:induction false} CallsConcat(a: seq<NotificationHandlerClass>, b: seq<NotificationHandlerClass>)
    ensures Calls(a + b) == Calls(a) + Calls(b)
    decreases |a|
  {
    if a == [] {
      assert a + b == b;
    } else {
      assert (a + b)[0] == a[0] && (a + b)[1..] == a[1..] + b;
      CallsConcat(a[1..], b);
    }
  }

  /** Each handler of the loop is instantiated once and called once, in order. */
  lemma {:induction false} CallsObservations(handlers: seq<NotificationHandlerClass>)
    ensures Created(Calls(handlers)) == handlers
    ensures Notified(Calls(handlers)) == handlers
    decreases |handlers|
  {
    if handlers != [] {
      var n := handlers[0];
      var t := Calls(handlers);
      CallsObservations(handlers[1..]);
      assert t[0] == CreateNotificationHandler(n) && t[1..][0] == HandleNotification(n);
      assert t[1..][1..] == Calls(handlers[1..]);
      assert handlers == [n] + handlers[1..];
    }
  }

  /**
   * When no handler raises, all of them run: each is instantiated and then
   * called, once, in resolved order, and `publish` returns `None`.
   */
  lemma EveryHandlerRunsOnce(handlers: seq<NotificationHandlerClass>)
    requires forall i :: 0 <= i < |handlers| ==> handlers[i].raises.None?
    ensures Delivered(handlers).reply == Returned(NoneValue)
    ensures Created(Delivered(handlers).trace) == handlers
    ensures Notified(Delivered(handlers).trace) == handlers
  {
    assert FirstFault(handlers) == |handlers|;
    CallsObservations(handlers);
  }

  /**
   * The exception of the first handler that raises ends `publish`: the handlers
   * before it and it ran, no later handler is instantiated or called.
   */
  lemma FaultStopsDelivery(handlers: seq<NotificationHandlerClass>, j: nat)
    requires j < |handlers| && handlers[j].raises.Some?
    requires forall i :: 0 <= i < j ==> handlers[i].raises.None?
    ensures Delivered(handlers).reply == Raised(handlers[j].raises.value)
    ensures Created(Delivered(handlers).trace) == handlers[..j + 1]
    ensures Notified(Delivered(handlers).trace) == handlers[..j + 1]
  {
    FirstFaultIs(handlers, j);
    CallsObservations(handlers[..j + 1]);
  }

  /** One more step of the loop: the calls of a longer prefix. */
  lemma CallsExtend(handlers: seq<NotificationHandlerClass>, i: nat)
    requires i < |handlers|
    ensures Calls(handlers[..i + 1]) ==
      Calls(handlers[..i]) + [CreateNotificationHandler(handlers[i]), HandleNotification(handlers[i])]
  {
    CallsConcat(handlers[..i], [handlers[i]]);
    assert handlers[..i + 1] == handlers[..i] + [handlers[i]];
  }

  /** The loop's run when it leaves at handler `j`. */
  lemma FaultDelivered(handlers: seq<NotificationHandlerClass>, j: nat)
    requires j < |handlers| && handlers[j].raises.Some?
    requires forall i :: 0 <= i < j ==> handlers[i].raises.None?
    ensures Delivered(handlers) == Run(Calls(handlers[..j + 1]), Raised(handlers[j].raises.value))
  {
    FirstFaultIs(handlers, j);
  }

  /** The loop's run when it reaches the end. */
  lemma CompleteDelivered(handlers: seq<NotificationHandlerClass>)
    requires forall i :: 0 <= i < |handlers| ==> handlers[i].raises.None?
    ensures Delivered(handlers) == Run(Calls(handlers), Returned(NoneValue))
  {
    assert FirstFault(handlers) == |handlers|;
  }

  lemma FirstFaultIs(handlers: seq<NotificationHandlerClass>, j: nat)
    requires j < |handlers| && handlers[j].raises.Some?
    requires forall i :: 0 <= i < j ==> handlers[i].raises.None?
    ensures FirstFault(handlers) == j
  {
  }
}
