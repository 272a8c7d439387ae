/**
 * The entities the mediator routes: requests and notifications (by object
 * identity and runtime type), the handler and behavior classes registered for
 * them, behavior registrations, the mediator's two errors, and the events a
 * dispatch performs.
 */
module Messages {
  import opened Types
  import opened Wrappers

  /** A value returned by user code: `None` or some object. */
  datatype Value = NoneValue | Object(id: nat)

  /** How a call into user code ends: it returns a value or raises an exception. */
  datatype Reply = Returned(value: Value) | Raised(exception: nat)

  /** A request object: its identity and its exact runtime type `type(request)`. */
  datatype Request = Request(id: nat, requestType: TypeId)

  /** A notification object: its identity and its exact runtime type. */
  datatype Notification = Notification(id: nat, notificationType: TypeId)

  /**
   * A `RequestHandler` subclass: `requestType` is the request type it declares
   * as its generic argument, `reply` what its `handle` produces.
   */
  datatype RequestHandlerClass = RequestHandlerClass(name: nat, requestType: TypeId, reply: Reply)

  /**
   * What a behavior's `handle` does: await its continuation and then add a key
   * to the response's data (the behaviors of the test suite), or produce a reply
   * without ever calling the continuation.
   */
  datatype BehaviorKind = CallNextThenAddData(key: string) | Respond(reply: Reply)

  /** A `PipelineBehavior` subclass with its declared request type. */
  datatype PipelineBehaviorClass = PipelineBehaviorClass(name: nat, requestType: TypeId, kind: BehaviorKind)

  /** A `NotificationHandler` subclass; `raises` is the exception its `handle` raises, if any. */
  datatype NotificationHandlerClass =
    NotificationHandlerClass(name: nat, notificationType: TypeId, raises: Option<nat>)

  /** `_PipelineBehaviorRegistration(pipeline_behavior, position)` */
  datatype Registration = Registration(pipelineBehavior: PipelineBehaviorClass, position: nat)

  /** `NoRequestHandlerFoundError` and `NotAnyNotificationHandlerFoundError`, with what they carry. */
  datatype MediatorError =
    | NoRequestHandlerFound(request: Request)
    | NotAnyNotificationHandlerFound(notification: Notification)

  /** The observable steps of a dispatch: factory calls, `handle` calls, `add_data` calls. */
  datatype Event =
    | CreateRequestHandler(requestHandler: RequestHandlerClass)
    | HandleRequest(requestHandler: RequestHandlerClass)
    | CreatePipelineBehavior(behavior: PipelineBehaviorClass)
    | HandleBehavior(behavior: PipelineBehaviorClass)
    | AddData(behavior: PipelineBehaviorClass, key: string)
    | CreateNotificationHandler(notificationHandler: NotificationHandlerClass)
    | HandleNotification(notificationHandler: NotificationHandlerClass)

  /** The events of one call, in order, and how the call ended. */
  datatype Run = Run(trace: seq<Event>, reply: Reply)
}
