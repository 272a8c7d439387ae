/**
 * The `Mediator` class: three registries and the position counter, the
 * `register_*` methods that update them in place, and the two dispatch
 * operations. `send` instantiates the handler registered for the request's
 * exact type and runs it inside the chain of the resolved pipeline behaviors;
 * `publish` runs every resolved notification handler in turn.
 *
 * The class graph `issubclass` consults is passed to the dispatch operations
 * as a `Hierarchy`.
 */
module Mediators {
  import opened Wrappers
  import opened Types
  import opened Dicts
  import opened Messages
  import opened Resolution
  import opened Chain
  import opened Fanout

  class Mediator {
    var requestHandlers: Dict<RequestHandlerClass>
    var pipelineBehaviors: Dict<seq<Registration>>
    var pipelineBehaviorPosition: nat
    var notificationHandlers: Dict<seq<NotificationHandlerClass>>
    const raiseErrorIfNotAnyRegisteredNotificationHandler: bool

    /**
     * The registries are well-formed dictionaries, and the positions handed out
     * so far are pairwise distinct and all below the counter.
     */
    ghost predicate Valid()
      reads this
    {
      && requestHandlers.Valid()
      && pipelineBehaviors.Valid()
      && notificationHandlers.Valid()
      && DistinctPositions(AllRegistrations(pipelineBehaviors))
      && PositionsBelow(AllRegistrations(pipelineBehaviors), pipelineBehaviorPosition)
    }

    constructor (raiseErrorIfNotAnyRegisteredNotificationHandler: bool)
      ensures Valid()
      ensures requestHandlers == Empty() && pipelineBehaviors == Empty() && notificationHandlers == Empty()
      ensures pipelineBehaviorPosition == 0
      ensures this.raiseErrorIfNotAnyRegisteredNotificationHandler == raiseErrorIfNotAnyRegisteredNotificationHandler
    {
      requestHandlers := Empty();
      pipelineBehaviors := Empty();
      pipelineBehaviorPosition := 0;
      notificationHandlers := Empty();
      this.raiseErrorIfNotAnyRegisteredNotificationHandler := raiseErrorIfNotAnyRegisteredNotificationHandler;
    }

    /** The handler becomes the one for its request type, replacing any earlier one. */
    method RegisterRequestHandler(requestHandler: RequestHandlerClass)
      requires Valid()
      modifies this
      ensures Valid()
      ensures requestHandlers == old(requestHandlers).Set(requestHandler.requestType, requestHandler)
      ensures requestHandlers.entries[requestHandler.requestType] == requestHandler
      ensures forall t :: t != requestHandler.requestType ==>
        (t in requestHandlers.entries <==> t in old(requestHandlers.entries))
        && (t in old(requestHandlers.entries) ==> requestHandlers.entries[t] == old(requestHandlers.entries[t]))
      ensures pipelineBehaviors == old(pipelineBehaviors) && notificationHandlers == old(notificationHandlers)
      ensures pipelineBehaviorPosition == old(pipelineBehaviorPosition)
    {
      var request := requestHandler.requestType;
      requestHandlers := requestHandlers.Set(request, requestHandler);
    }

    /** The handler goes last in its notification type's list; the other lists are unchanged. */
    method RegisterNotificationHandler(notificationHandler: NotificationHandlerClass)
      requires Valid()
      modifies this
      ensures Valid()
      ensures notificationHandlers == AppendTo(old(notificationHandlers), notificationHandler.notificationType, notificationHandler)
      ensures notificationHandlers.entries[notificationHandler.notificationType]
        == old(notificationHandlers).Get(notificationHandler.notificationType, []) + [notificationHandler]
      ensures notificationHandlers.keys
        == if notificationHandler.notificationType in old(notificationHandlers.entries) then old(notificationHandlers.keys)
           else old(notificationHandlers.keys) + [notificationHandler.notificationType]
      ensures requestHandlers == old(requestHandlers) && pipelineBehaviors == old(pipelineBehaviors)
      ensures pipelineBehaviorPosition == old(pipelineBehaviorPosition)
    {
      var notification := notificationHandler.notificationType;
      var handlers := notificationHandlers.Get(notification, []);
      handlers := handlers + [notificationHandler];
      notificationHandlers := notificationHandlers.Set(notification, handlers);
    }

    /**
     * The behavior is registered under its request type with the current value
     * of the shared counter as its position, and the counter moves on by one.
     */
    method RegisterPipelineBehavior(pipelineBehavior: PipelineBehaviorClass)
      requires Valid()
      modifies this
      ensures Valid()
      ensures pipelineBehaviors
        == AppendTo(old(pipelineBehaviors), pipelineBehavior.requestType, Registration(pipelineBehavior, old(pipelineBehaviorPosition)))
      ensures pipelineBehaviorPosition == old(pipelineBehaviorPosition) + 1
      ensures multiset(AllRegistrations(pipelineBehaviors))
        == multiset(AllRegistrations(old(pipelineBehaviors))) + multiset{Registration(pipelineBehavior, old(pipelineBehaviorPosition))}
      ensures requestHandlers == old(requestHandlers) && notificationHandlers == old(notificationHandlers)
    {
      RegisteringBehaviorAddsOneRegistration(pipelineBehaviors, pipelineBehavior, pipelineBehaviorPosition);
      RegisteringBehaviorKeepsPositionsUnique(pipelineBehaviors, pipelineBehavior, pipelineBehaviorPosition);
      var request := pipelineBehavior.requestType;
      var registrations := pipelineBehaviors.Get(request, []);
      registrations := registrations + [Registration(pipelineBehavior, pipelineBehaviorPosition)];
      pipelineBehaviors := pipelineBehaviors.Set(request, registrations);
      pipelineBehaviorPosition := pipelineBehaviorPosition + 1;
    }

    /**
     * `send(request)`: fails with the request when its exact type has no
     * handler (a handler for a supertype does not help); otherwise the handler
     * is instantiated first and then run inside the chain of the resolved
     * behaviors, which is the flat run `Unwound` describes.
     */
    function Send(request: Request, hierarchy: Hierarchy): (r: Result<Run, MediatorError>)
      reads this
      requires Valid()
      ensures r.Failure? <==> request.requestType !in requestHandlers.entries
      ensures r.Failure? ==> r.error == NoRequestHandlerFound(request)
      ensures r.Success? ==>
        var handler := requestHandlers.entries[request.requestType];
        var run := Unwound(handler, ResolvePipelineBehaviors(pipelineBehaviors, hierarchy, request.requestType));
        r.value == Run([CreateRequestHandler(handler)] + run.trace, run.reply)
      ensures r.Success? && ResolvePipelineBehaviors(pipelineBehaviors, hierarchy, request.requestType) == [] ==>
        var handler := requestHandlers.entries[request.requestType];
        r.value == Run([CreateRequestHandler(handler), HandleRequest(handler)], handler.reply)
    {
      if request.requestType !in requestHandlers.entries then
        Failure(NoRequestHandlerFound(request))
      else
        var handler := requestHandlers.entries[request.requestType];
        var behaviors := ResolvePipelineBehaviors(pipelineBehaviors, hierarchy, request.requestType);
        if |behaviors| == 0 then
          assert Unwound(handler, behaviors).trace == Descent([]) + [HandleRequest(handler)] + [];
          Success(Run([CreateRequestHandler(handler), HandleRequest(handler)], handler.reply))
        else
          StageUnwinds(handler, behaviors, 0);
          assert behaviors[0..] == behaviors;
          var run := Stage(handler, behaviors, 0);
          Success(Run([CreateRequestHandler(handler)] + run.trace, run.reply))
    }

    /**
     * `publish(notification)`: in strict mode an empty resolution fails with
     * the notification; otherwise each resolved handler is instantiated and
     * called in turn, until one raises.
     */
    method Publish(notification: Notification, hierarchy: Hierarchy) returns (r: Result<Run, MediatorError>)
      requires Valid()
      ensures var handlers := ResolveNotificationHandlers(notificationHandlers, hierarchy, notification.notificationType);
        && (r.Failure? <==> handlers == [] && raiseErrorIfNotAnyRegisteredNotificationHandler)
        && (r.Failure? ==> r.error == NotAnyNotificationHandlerFound(notification))
        && (r.Success? ==> r.value == Delivered(handlers))
      ensures (ResolveNotificationHandlers(notificationHandlers, hierarchy, notification.notificationType) == []
               && !raiseErrorIfNotAnyRegisteredNotificationHandler)
        ==> r == Success(Run([], Returned(NoneValue)))
    {
      var handlers := ResolveNotificationHandlers(notificationHandlers, hierarchy, notification.notificationType);
      if |handlers| == 0 && raiseErrorIfNotAnyRegisteredNotificationHandler {
        return Failure(NotAnyNotificationHandlerFound(notification));
      }
      var trace: seq<Event> := [];
      var i := 0;
      while i < |handlers|
        invariant 0 <= i <= |handlers|
        invariant trace == Calls(handlers[..i])
        invariant forall k :: 0 <= k < i ==> handlers[k].raises.None?
      {
        var handler := handlers[i];
        CallsExtend(handlers, i);
        trace := trace + [CreateNotificationHandler(handler), HandleNotification(handler)];
        if handler.raises.Some? {
          FaultDelivered(handlers, i);
          return Success(Run(trace, Raised(handler.raises.value)));
        }
        i := i + 1;
      }
      assert handlers[..i] == handlers;
      CompleteDelivered(handlers);
      return Success(Run(trace, Returned(NoneValue)));
    }
  }

  /** The handler a send instantiates is instantiated once, before the chain starts. */
  lemma HandlerInstantiatedOnce(m: Mediator, request: Request, hierarchy: Hierarchy)
    requires m.Valid() && m.Send(request, hierarchy).Success?
    ensures var trace := m.Send(request, hierarchy).value.trace;
      && trace != []
      && trace[0] == CreateRequestHandler(m.requestHandlers.entries[request.requestType])
      && forall k :: 1 <= k < |trace| ==> !trace[k].CreateRequestHandler?
  {
    var handler := m.requestHandlers.entries[request.requestType];
    var behaviors := ResolvePipelineBehaviors(m.pipelineBehaviors, hierarchy, request.requestType);
    var run := Unwound(handler, behaviors);
    ChainNeverCreatesHandler(handler, behaviors);
    assert forall k :: 1 <= k < 1 + |run.trace| ==> ([CreateRequestHandler(handler)] + run.trace)[k] == run.trace[k - 1];
  }

  /**
   * A send through two resolved behaviors that both call the next stage and
   * then add data: the handler's response comes back, the data keys are added
   * innermost first and the behaviors are instantiated outermost first.
   */
  lemma SendThroughTwoBehaviors(m: Mediator, request: Request, hierarchy: Hierarchy,
                                first: Registration, second: Registration, k1: string, k2: string)
    requires m.Valid() && request.requestType in m.requestHandlers.entries
    requires m.requestHandlers.entries[request.requestType].reply.Returned?
    requires ResolvePipelineBehaviors(m.pipelineBehaviors, hierarchy, request.requestType) == [first, second]
    requires first.pipelineBehavior.kind == CallNextThenAddData(k1)
    requires second.pipelineBehavior.kind == CallNextThenAddData(k2)
    ensures var r := m.Send(request, hierarchy);
      && r.Success?
      && r.value.reply == m.requestHandlers.entries[request.requestType].reply
      && DataKeys(r.value.trace) == [k2, k1]
      && Instantiated(r.value.trace) == [first.pipelineBehavior, second.pipelineBehavior]
  {
    TwoBehaviorsNest(m.requestHandlers.entries[request.requestType], first, second, k1, k2);
  }

  // ----- a sequence of `register_request_handler` calls ---------------------

  /** The request-handler registry after registering `handlers` one after another. */
  function Registered(registry: Dict<RequestHandlerClass>, handlers: seq<RequestHandlerClass>): Dict<RequestHandlerClass>
    decreases |handlers|
  {
    if handlers == [] then registry
    else
      var last := handlers[|handlers| - 1];
      Registered(registry, handlers[..|handlers| - 1]).Set(last.requestType, last)
  }

  /** No handler after index `i` of `handlers` is declared for type `t`. */
  predicate NoneAfter(handlers: seq<RequestHandlerClass>, t: TypeId, i: nat) {
    forall k :: i < k < |handlers| ==> handlers[k].requestType != t
  }

  /** The last of `handlers` declared for type `t`, if any. */
  function LastFor(handlers: seq<RequestHandlerClass>, t: TypeId): (r: Option<RequestHandlerClass>)
    ensures r.Some? ==> r.value in handlers && r.value.requestType == t
    ensures r.None? <==> forall i :: 0 <= i < |handlers| ==> handlers[i].requestType != t
    ensures r.Some? ==> exists i :: 0 <= i < |handlers| && handlers[i] == r.value && NoneAfter(handlers, t, i)
    decreases |handlers|
  {
    if handlers == [] then None
    else
      var n := |handlers| - 1;
      if handlers[n].requestType == t then Some(handlers[n])
      else
        var earlier := handlers[..n];
        assert forall i :: 0 <= i < n ==> earlier[i] == handlers[i];
        assert forall i :: 0 <= i < n && NoneAfter(earlier, t, i) ==> NoneAfter(handlers, t, i);
        LastFor(earlier, t)
  }

  /**
   * After any sequence of registrations, the handler for each type is the one
   * registered last for it; a type nobody registered keeps its old entry or
   * its absence.
   */
  lemma {:induction false} LastRegistrationWins(registry: Dict<RequestHandlerClass>, handlers: seq<RequestHandlerClass>, t: TypeId)
    requires registry.Valid()
    ensures Registered(registry, handlers).Valid()
    ensures LastFor(handlers, t).Some? ==>
      t in Registered(registry, handlers).entries && Registered(registry, handlers).entries[t] == LastFor(handlers, t).value
    ensures LastFor(handlers, t).None? ==>
      (t in Registered(registry, handlers).entries <==> t in registry.entries)
      && (t in registry.entries ==> Registered(registry, handlers).entries[t] == registry.entries[t])
    decreases |handlers|
  {
    if handlers != [] {
      LastRegistrationWins(registry, handlers[..|handlers| - 1], t);
    }
  }
}
