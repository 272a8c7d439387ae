/**
 * The situations of the test suite, replayed against the model. Request types:
 * `Request` is 0 and its subclass `MyRequest` is 1; notification types:
 * `Notification` is 2 and its subclass `MyNotification` is 3.
 */
module Scenarios {
  import opened Wrappers
  import opened Types
  import opened Dicts
  import opened Messages
  import opened Resolution
  import opened Chain
  import opened Fanout
  import opened Mediators

  const RequestType: TypeId := 0
  const MyRequestType: TypeId := 1
  const NotificationType: TypeId := 2
  const MyNotificationType: TypeId := 3

  function ClassGraph(): Hierarchy {
    Hierarchy(map[MyRequestType := {RequestType}, MyNotificationType := {NotificationType}])
  }

  /** `MyResponse("test")` and `MyResponse("other_test")` */
  const TestResponse: Value := Object(0)
  const OtherTestResponse: Value := Object(1)

  const MyRequestHandler := RequestHandlerClass(0, MyRequestType, Returned(TestResponse))
  const OtherRequestHandler := RequestHandlerClass(1, MyRequestType, Returned(OtherTestResponse))
  const MyPipelineBehavior := PipelineBehaviorClass(0, MyRequestType, CallNextThenAddData("test"))
  const OtherPipelineBehavior := PipelineBehaviorClass(1, RequestType, CallNextThenAddData("other_test"))
  const MyNotificationHandler := NotificationHandlerClass(0, MyNotificationType, None)
  const OtherNotificationHandler := NotificationHandlerClass(1, NotificationType, None)

  lemma NothingResolvedFromEmpty(h: Hierarchy, t: TypeId)
    ensures ResolvePipelineBehaviors(Empty(), h, t) == []
    ensures ResolveNotificationHandlers(Empty(), h, t) == []
  {
    var e: Dict<seq<Registration>> := Empty();
    assert Collected(e.keys, e.entries, SupertypesOf(h, t)) == [];
  }

  /** Sending a request whose type has no handler fails and carries that request. */
  method UnregisteredRequestFails() returns (r: Result<Run, MediatorError>)
    ensures r == Failure(NoRequestHandlerFound(Request(0, MyRequestType)))
  {
    var m := new Mediator(false);
    r := m.Send(Request(0, MyRequestType), ClassGraph());
  }

  /** Of two handlers for the same request type, only the one registered last runs. */
  method LastRequestHandlerRuns() returns (r: Result<Run, MediatorError>)
    ensures r == Success(Run([CreateRequestHandler(OtherRequestHandler), HandleRequest(OtherRequestHandler)],
                              Returned(OtherTestResponse)))
  {
    var m := new Mediator(false);
    m.RegisterRequestHandler(MyRequestHandler);
    m.RegisterRequestHandler(OtherRequestHandler);
    NothingResolvedFromEmpty(ClassGraph(), MyRequestType);
    r := m.Send(Request(0, MyRequestType), ClassGraph());
  }

  /**
   * Registers two pipeline behaviors, each for `t` or a supertype of it, on a
   * mediator that resolves no behavior yet for `t`: both are then resolved for
   * `t`, in registration order, with consecutive positions.
   */
  method RegisterTwoBehaviors(m: Mediator, h: Hierarchy, t: TypeId, b1: PipelineBehaviorClass, b2: PipelineBehaviorClass)
    requires m.Valid() && ResolvePipelineBehaviors(m.pipelineBehaviors, h, t) == []
    requires IsSubclass(h, t, b1.requestType) && IsSubclass(h, t, b2.requestType)
    modifies m
    ensures m.Valid()
    ensures m.requestHandlers == old(m.requestHandlers)
    ensures ResolvePipelineBehaviors(m.pipelineBehaviors, h, t)
      == [Registration(b1, old(m.pipelineBehaviorPosition)),
          Registration(b2, old(m.pipelineBehaviorPosition) + 1)]
  {
    ghost var before := m.pipelineBehaviors;
    ghost var p1 := m.pipelineBehaviorPosition;
    m.RegisterPipelineBehavior(b1);
    ghost var middle := m.pipelineBehaviors;
    ghost var p2 := m.pipelineBehaviorPosition;
    m.RegisterPipelineBehavior(b2);
    TwoRegistrationsResolveInOrder(before, middle, m.pipelineBehaviors, h, t, b1, b2, p1, p2);
  }

  /**
   * `MyRequestHandler`, then `MyPipelineBehavior` (for `MyRequest`) and
   * `OtherPipelineBehavior` (for `Request`) registered on a mediator that has
   * no behavior yet for `MyRequest`: sending a `MyRequest` runs both behaviors
   * around the handler. `OtherPipelineBehavior`, entered last, adds its data
   * first, and the handler's response comes back.
   */
  method NestedBehaviorsAddDataInReverseOrder(m: Mediator) returns (r: Result<Run, MediatorError>)
    requires m.Valid() && ResolvePipelineBehaviors(m.pipelineBehaviors, ClassGraph(), MyRequestType) == []
    modifies m
    ensures r.Success? && r.value.reply == Returned(TestResponse)
    ensures DataKeys(r.value.trace) == ["other_test", "test"]
    ensures Instantiated(r.value.trace) == [MyPipelineBehavior, OtherPipelineBehavior]
  {
    var position := m.pipelineBehaviorPosition;
    m.RegisterRequestHandler(MyRequestHandler);
    assert IsSubclass(ClassGraph(), MyRequestType, RequestType);
    RegisterTwoBehaviors(m, ClassGraph(), MyRequestType, MyPipelineBehavior, OtherPipelineBehavior);
    var request := Request(0, MyRequestType);
    SendThroughTwoBehaviors(m, request, ClassGraph(), Registration(MyPipelineBehavior, position),
                            Registration(OtherPipelineBehavior, position + 1), "test", "other_test");
    r := m.Send(request, ClassGraph());
  }

  /** The situation of the test suite: a new mediator. */
  method NestedBehaviorsOnNewMediator() returns (r: Result<Run, MediatorError>)
    ensures r.Success? && r.value.reply == Returned(TestResponse)
    ensures DataKeys(r.value.trace) == ["other_test", "test"]
    ensures Instantiated(r.value.trace) == [MyPipelineBehavior, OtherPipelineBehavior]
  {
    var m := new Mediator(false);
    NothingResolvedFromEmpty(ClassGraph(), MyRequestType);
    r := NestedBehaviorsAddDataInReverseOrder(m);
  }

  /** In strict mode, publishing with no handler fails and carries the notification. */
  method StrictPublishWithoutHandlersFails() returns (r: Result<Run, MediatorError>)
    ensures r == Failure(NotAnyNotificationHandlerFound(Notification(0, MyNotificationType)))
  {
    var m := new Mediator(true);
    NothingResolvedFromEmpty(ClassGraph(), MyNotificationType);
    r := m.Publish(Notification(0, MyNotificationType), ClassGraph());
  }

  /** Otherwise publishing with no handler does nothing. */
  method LenientPublishWithoutHandlersDoesNothing() returns (r: Result<Run, MediatorError>)
    ensures r == Success(Run([], Returned(NoneValue)))
  {
    var m := new Mediator(false);
    NothingResolvedFromEmpty(ClassGraph(), MyNotificationType);
    r := m.Publish(Notification(0, MyNotificationType), ClassGraph());
  }

  /** A handler for the notification's type and one for its supertype both run, in registration order. */
  method BothNotificationHandlersRun() returns (r: Result<Run, MediatorError>)
    ensures r.Success? && r.value.reply == Returned(NoneValue)
    ensures Notified(r.value.trace) == [MyNotificationHandler, OtherNotificationHandler]
    ensures Created(r.value.trace) == [MyNotificationHandler, OtherNotificationHandler]
  {
    var h := ClassGraph();
    var m := new Mediator(false);
    NothingResolvedFromEmpty(h, MyNotificationType);
    ghost var before := m.notificationHandlers;
    m.RegisterNotificationHandler(MyNotificationHandler);
    ghost var middle := m.notificationHandlers;
    m.RegisterNotificationHandler(OtherNotificationHandler);
    TwoNotificationHandlersResolveInOrder(before, middle, m.notificationHandlers, h, MyNotificationType,
                                          MyNotificationHandler, OtherNotificationHandler);
    r := m.Publish(Notification(0, MyNotificationType), h);
    EveryHandlerRunsOnce([MyNotificationHandler, OtherNotificationHandler]);
  }
}
