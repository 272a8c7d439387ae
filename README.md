# Mediator dispatch engine

This project models the dispatch engine of the Python `Mediator` class and proves properties of the model. The engine routes a request to its one request handler, wrapped in a chain of pipeline behaviors, and a notification to every notification handler registered for it. It appears twice in the repository, in `src/mediatpy/__init__.py` and, nearly line for line, in `src/mediator/__init__.py`. One model serves both. The table below cites whichever file states the property most directly; the second table maps one file's lines to the other's.

The model has these parts:

- **`Types`**: message types are abstract ids. `issubclass` is the relation `IsSubclass` over a `Hierarchy` that maps each class to its proper supertypes. The relation is reflexive; the hierarchy is taken as given, and no result depends on its being transitive.
- **`Dicts`**: a Python `dict` is a mapping together with its keys in first-insertion order, which is the order `items()` walks. `Set` is `d[k] = v`. `AppendTo` is the `get(k, [])`, `append`, store-back idiom of the `register_*` methods.
- **`Messages`**: the entities.
  - Requests and notifications are identified by object identity and exact runtime type.
  - Handler and behavior classes carry their declared request or notification type and what their `handle` does: it returns a value or raises, and a behavior calls its continuation and then adds data, or answers on its own.
  - `_PipelineBehaviorRegistration` becomes `Registration`.
  - The two error classes become `MediatorError`, with the object each error carries.
  - What a dispatch does is recorded as a trace of events: factory calls, `handle` calls and `add_data` calls.
- **`Resolution`**:
  - The two resolvers: a filter over the dict's items, a flatten, and for behaviors a stable sort by position.
  - The global position counter and what it guarantees.
- **`Chain`**:
  - The lazily built continuations of `_get_next_pipeline_behavior`, as the mutually recursive `Stage` and `Continuation`.
  - `Unwound`, an independent flat description of the same run. `StageUnwinds` proves that the two are equal.
- **`Fanout`**: `Delivered`, the flat description of the `publish` loop.
- **`Mediators`**: the `Mediator` class.
  - Its three registries and its counter are fields, and the `register_*` methods update them in place.
  - `Send` is a function of the state.
  - `Publish` is a method whose loop is proved against `Delivered`.
  - `Valid()` is the class invariant: the dicts are well formed, and the positions handed out so far are pairwise distinct and below the counter.
- **`Scenarios`**: the situations of `tests/test_mediator.py`, replayed on the class.

| `src/mediatpy/__init__.py` | `src/mediator/__init__.py` | what |
|---|---|---|
| 70-73 | 44-47 | the registration record |
| 81-83, 91-93 | 51-53, 57-59 | the two errors |
| 107-131 | 63-87 | `__init__` |
| 171-176 | 118-120 | `register_request_handler` |
| 178-185 | 122-126 | `register_notification_handler` |
| 187-195 | 128-133 | `register_pipeline_behavior` |
| 197-216 | 135-146 | `send` |
| 218-232 | 148-154 | `publish` |
| 243-247 | 165-169 | `_resolve_pipeline_behaviors` |
| 249-252 | 171-174 | `_resolve_notification_handlers` |
| 254-272 | 176-194 | `_get_next_pipeline_behavior` |

## Model

| member | source | states |
|---|---|---|
| `Mediators.Mediator.constructor` | src/mediatpy/__init__.py:107-131 | A new mediator has three empty registries and position counter 0, stores the strict-mode flag, and satisfies the invariant. |
| `Mediators.Mediator.RegisterRequestHandler` | src/mediatpy/__init__.py:171-176 | The handler becomes the entry for its declared request type, replacing any earlier entry. Every other entry, the other registries and the counter are unchanged, and the invariant is kept. |
| `Mediators.Mediator.RegisterNotificationHandler` | src/mediatpy/__init__.py:178-185 | The handler is appended at the end of its type's list, after the earlier entries in their order. The key order grows by the type exactly when the type is new. Nothing else changes. |
| `Mediators.Mediator.RegisterPipelineBehavior` | src/mediatpy/__init__.py:187-195 | `(behavior, old counter)` is appended to its type's list, and the counter grows by exactly 1. The registrations gain exactly that one registration. Positions stay pairwise distinct and below the counter. |
| `Mediators.Mediator.Send` | src/mediatpy/__init__.py:197-216 | `send` fails exactly when the request's exact type has no entry, and the error carries that request. Otherwise the entry's handler is instantiated first and then runs inside the chain of the resolved behaviors. With no resolved behavior, the handler's reply, whatever it is, comes back unchanged. |
| `Mediators.Mediator.Publish` | src/mediatpy/__init__.py:218-232 | `publish` fails exactly when nothing resolves in strict mode, and the error carries the notification. Otherwise the loop's run is `Delivered` of the resolved handlers. With nothing resolved and strict mode off, it does nothing and returns `None`. |
| `Mediators.HandlerInstantiatedOnce` | src/mediator/__init__.py:136-146 | On a successful send, the first event is the factory call for the registered handler, and no later event instantiates a request handler. |
| `Mediators.SendThroughTwoBehaviors` | src/mediatpy/__init__.py:209-216 | Sending through two resolved behaviors that both call the next stage and add data returns the handler's reply. The keys are added innermost first, and the behaviors are instantiated in resolved order. |
| `Mediators.LastRegistrationWins` | src/mediator/__init__.py:118-120 | After any sequence of `register_request_handler` calls, each type's entry is the handler registered last for it. A type no call named keeps its old entry, or stays absent. |
| `Mediators.LastFor` | src/mediator/__init__.py:118-120 | The reference for the above: the last handler declared for a type, which is one of the handlers and has that type, or none exactly when no handler has that type. No handler after the returned one has that type. |
| `Resolution.ResolvePipelineBehaviors` | src/mediatpy/__init__.py:243-247 | The resolved behaviors are in ascending position order, and are a permutation of the flattened lists stored under keys the request's type is a subclass of. |
| `Resolution.SortByPosition` | src/mediatpy/__init__.py:247 | The sort's output is ascending by position and a permutation of its input. |
| `Resolution.ResolvedBehaviorsMatch` | src/mediator/__init__.py:165-169 | A registration is resolved if and only if some key, which the request's type is a subclass of, stores it. |
| `Resolution.ResolvedBehaviorsStrictlyAscending` | src/mediatpy/__init__.py:244-247 | When positions are unique and below the counter, the resolved behaviors are strictly ascending by position and below the counter. |
| `Resolution.StrictlyAscendingUnique` | src/mediatpy/__init__.py:247 | Two strictly ascending orderings of the same registrations are equal. The sorted resolution is therefore fully determined. |
| `Resolution.DistinctPermutation` | src/mediatpy/__init__.py:247 | Reordering registrations, as the sort does, keeps their positions distinct. |
| `Resolution.RegisteringBehaviorAddsOneRegistration` | src/mediatpy/__init__.py:191-194 | After the append, the dict is still well formed, and its registrations are the old ones plus exactly the new one. |
| `Resolution.RegisteringBehaviorKeepsPositionsUnique` | src/mediator/__init__.py:128-133 | Registering at the current counter keeps all positions pairwise distinct and puts them below the incremented counter. |
| `Resolution.RegisteringBehaviorAppendsToResolution` | src/mediatpy/__init__.py:187-195 | A new behavior goes last in the resolution of every request type that is a subclass of its key. Every other resolution is unchanged. |
| `Resolution.ResolveNotificationHandlers` | src/mediatpy/__init__.py:249-252 | A notification handler is resolved if and only if some key, which the notification's type is a subclass of, stores it. |
| `Resolution.NotificationHandlersInKeyOrder` | src/mediatpy/__init__.py:249-252 | The resolved notification handlers are the per-key lists of the matching keys, concatenated in the keys' first-insertion order and not sorted. |
| `Resolution.RegisteringNotificationHandlerExtendsResolution` | src/mediator/__init__.py:122-126 | A new notification handler is added once to the resolution of each matching type, at the very end when its key is new. A type that does not match keeps its resolution. |
| `Resolution.TwoRegistrationsResolveInOrder` | tests/test_mediator.py:97-101 | Two behaviors are registered one after the other, for a type or its supertype, where nothing resolved before. Both then resolve, in registration order, at consecutive positions. |
| `Resolution.TwoNotificationHandlersResolveInOrder` | tests/test_mediator.py:125-128 | Two notification handlers are registered under two new keys that match. Both then resolve, in registration order. |
| `Chain.Stage` | src/mediatpy/__init__.py:254-272 | Stage `i` instantiates and then enters behavior `i` before anything else. The handler runs exactly when no behavior from `i` on answers without calling its continuation. `Chain.StageUnwinds` gives its whole run. |
| `Chain.Continuation` | src/mediator/__init__.py:176-194 | At the last index the continuation runs only the handler and returns its reply. Otherwise it first instantiates behavior `i + 1`. The handler runs exactly when no behavior after `i` answers without calling on. `Chain.ContinuationUnwinds` gives its whole run. |
| `Chain.StageUnwinds` | src/mediatpy/__init__.py:254-272 | Running behavior `i` with continuation `i` does exactly what the flat description `Unwound` does for the behaviors from `i` on. |
| `Chain.ContinuationUnwinds` | src/mediator/__init__.py:183-192 | Calling continuation `i` runs the handler when `i` is the last index, and otherwise runs the behaviors after `i`. Either way it matches the flat description. |
| `Chain.UnwoundCons` | src/mediatpy/__init__.py:261-270 | A behavior that calls its continuation is entered, then the rest of the run happens. It adds its data on the way back, unless an exception comes up. |
| `Chain.UnwoundRespond` | src/mediatpy/__init__.py:261-270 | A behavior that does not call its continuation is instantiated and entered, its reply is the result, and nothing else runs. |
| `Chain.ChainNests` | src/mediatpy/__init__.py:212-216 | When every behavior calls its continuation, the behaviors are entered in order, the handler runs innermost, and its reply comes back. The behaviors are instantiated in order, and the data keys are added in reverse order. |
| `Chain.ShortCircuitStops` | src/mediatpy/__init__.py:261-270 | Suppose the first behavior that does not call its continuation is at `j`. Its reply is the result, the handler never runs, and only behaviors `0..j` are instantiated. The run is the descent into behaviors `0..j`, followed by the ascent through `0..j-1` adding data when the reply is a normal return. No later behavior is entered. |
| `Chain.ExceptionAddsNoData` | tests/test_mediator.py:32-43 | When an exception travels up the chain, a behavior that awaits its continuation and then adds data adds nothing. |
| `Chain.TwoBehaviorsNest` | tests/test_mediator.py:97-108 | With two data-adding behaviors around the handler, the response is the handler's. The keys come innermost first, `[k2, k1]`, and the behaviors are instantiated in order. |
| `Fanout.EveryHandlerRunsOnce` | src/mediator/__init__.py:153-154 | When no handler raises, every resolved handler is instantiated and called exactly once, in resolved order, and `None` is returned. |
| `Fanout.FaultStopsDelivery` | src/mediatpy/__init__.py:231-232 | The first handler that raises ends `publish` with its exception. The handlers up to and including it ran, once each and in order, and no later handler is instantiated or called. |
| `Fanout.CallsObservations` | src/mediatpy/__init__.py:231-232 | Each loop step instantiates its handler and then calls it. Read back from the trace, the factory calls and the `handle` calls are both the handler list itself. |
| `Scenarios.UnregisteredRequestFails` | tests/test_mediator.py:57-63 | Sending to a new mediator fails with the error carrying the sent request. |
| `Scenarios.LastRequestHandlerRuns` | tests/test_mediator.py:75-82 | Of two handlers registered for the same type, only the second is instantiated and run, and its response is returned. |
| `Scenarios.NestedBehaviorsAddDataInReverseOrder` | tests/test_mediator.py:97-108 | `MyPipelineBehavior` and then `OtherPipelineBehavior` are registered. A send then returns `MyResponse("test")`, the data keys are `["other_test", "test"]`, and the behaviors are instantiated in registration order. |
| `Scenarios.NestedBehaviorsOnNewMediator` | tests/test_mediator.py:97-106 | On a new mediator, as in the test, the send returns `MyResponse("test")`. The data keys are `["other_test", "test"]`, and `MyPipelineBehavior` and then `OtherPipelineBehavior` are instantiated. |
| `Scenarios.StrictPublishWithoutHandlersFails` | tests/test_mediator.py:111-117 | In strict mode, publishing with no handler fails with the error carrying the notification. |
| `Scenarios.LenientPublishWithoutHandlersDoesNothing` | tests/test_mediator.py:120-122 | Without strict mode, publishing with no handler succeeds and performs no event. |
| `Scenarios.BothNotificationHandlersRun` | tests/test_mediator.py:125-135 | A handler for `MyNotification` and one for its supertype `Notification` are both instantiated and called once, in registration order. |

## Left out

- async/await. Every call runs to completion in order. Awaiting adds only suspension, which this model does not represent.
- `functools.cache` on the two resolvers. The resolvers are modelled as pure functions of the current registries. With the cache, resending the same request object after a later registration would return the earlier, stale resolution. `@cache` also hashes its arguments `(self, request)`: an unhashable request, such as a default `@dataclass` (which sets `eq=True` and so drops `__hash__`), makes `send` raise `TypeError` at src/mediatpy/__init__.py:209, after the handler has been instantiated. The model takes every request as hashable.
- `_get_request_type` and `_get_notification_type`, which reflect over `__orig_bases__`, are not modelled. Each handler or behavior class carries its declared type instead.
- The factories, both the defaults and user-supplied ones, are not modelled. A factory call is recorded as an instantiation event for the class it was called with.
- User code is limited to a handler's reply (a value or an exception), two behavior kinds, and whether a notification handler raises. The two behavior kinds are:
  - await the continuation, then add one data key;
  - answer without calling the continuation.
- Other code inside `handle` methods is not modelled. This covers what data a notification handler adds, the content of a response, and `add_data` on a value that does not support it.
- The class graph `issubclass` consults is a parameter of `Send` and `Publish`. The model does not take it from the runtime.
- `any(...)` on the resolved lists is modelled as a non-emptiness test. Registrations and classes are always truthy.
- The decorator methods `request_handler`, `pipeline_behavior` and `notification_handler` are not modelled. They only forward to the `register_*` methods.
- Error message strings, `docs/conf.py` and the test fixtures are not part of this model. The fixtures are the data classes and the `create_mediator` helpers.
- `Scenarios.NestedBehaviorsAddDataInReverseOrder` takes any mediator that resolves no behavior for `MyRequest`. This is more general than the test's one new mediator. `Scenarios.NestedBehaviorsOnNewMediator` is the test's own case.
