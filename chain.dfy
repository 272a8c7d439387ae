/**
 * The pipeline of a `send`: behaviors b0..bn-1 (in resolved order) wrapped
 * around the request handler.
 *
 * `Continuation(i)` is the closure `_get_next_pipeline_behavior(..., i)` when
 * it is called: it runs the handler when `i` is the last index, and otherwise
 * instantiates behavior `i + 1` and runs it with continuation `i + 1`.
 * `Stage(i)` instantiates behavior `i` and runs its `handle` with continuation
 * `i`; `send` starts the chain with `Stage(0)`. A continuation is only built and
 * run when the behavior before it calls it.
 *
 * `Unwound` is an independent, flat description of the same run: the
 * behaviors are entered in order down to the first one that does not call its
 * continuation (or down to the handler), and the behaviors that called their
 * continuation add their data on the way back up, innermost first, unless an
 * exception is travelling up.
 */
module Chain {
  import opened Messages

  /**
   * What `call_next` of stage `index` runs: the next stage, or the
   * handler after the last one.  The handler runs exactly when no later
   * behavior answers without calling on.
   */
  function Continuation(handler: RequestHandlerClass, behaviors: seq<Registration>, index: nat): (r: Run)
    requires index < |behaviors|
    ensures index + 1 == |behaviors| ==> r.trace == [HandleRequest(handler)] && r.reply == handler.reply
    ensures index + 1 < |behaviors| ==>
      r.trace != [] && r.trace[0] == CreatePipelineBehavior(behaviors[index + 1].pipelineBehavior)
    ensures HandleRequest(handler) in r.trace <==>
      forall i :: index < i < |behaviors| ==> behaviors[i].pipelineBehavior.kind.CallNextThenAddData?
    decreases |behaviors| - index, 0
  {
    var nextIndex := index + 1;
    if nextIndex == |behaviors| then
      Run([HandleRequest(handler)], handler.reply)
    else
      Stage(handler, behaviors, nextIndex)
  }

  /**
   * Stage `index` of the chain: behavior `index` is instantiated and
   * entered first, and the handler runs exactly when neither it nor any
   * later behavior answers without calling on.
   */
  function Stage(handler: RequestHandlerClass, behaviors: seq<Registration>, index: nat): (r: Run)
    requires index < |behaviors|
    ensures |r.trace| >= 2
    ensures r.trace[0] == CreatePipelineBehavior(behaviors[index].pipelineBehavior)
    ensures r.trace[1] == HandleBehavior(behaviors[index].pipelineBehavior)
    ensures HandleRequest(handler) in r.trace <==>
      forall i :: index <= i < |behaviors| ==> behaviors[i].pipelineBehavior.kind.CallNextThenAddData?
    decreases |behaviors| - index, 1
  {
    var b := behaviors[index].pipelineBehavior;
    var entered := [CreatePipelineBehavior(b), HandleBehavior(b)];
    match b.kind
    case Respond(reply) => Run(entered, reply)
    case CallNextThenAddData(key) =>
      var rest := Continuation(handler, behaviors, index);
      if rest.reply.Raised? then
        // `response = await next_behavior()` raised: nothing is added
        Run(entered + rest.trace, rest.reply)
      else
        Run(entered + rest.trace + [AddData(b, key)], rest.reply)
  }

  // ----- the flat description ----------------------------------------------

  /** The index of the first behavior that does not call its continuation, or |behaviors|. */
  function FirstResponder(behaviors: seq<Registration>): (j: nat)
    ensures j <= |behaviors|
    ensures forall i :: 0 <= i < j ==> behaviors[i].pipelineBehavior.kind.CallNextThenAddData?
    ensures j < |behaviors| ==> behaviors[j].pipelineBehavior.kind.Respond?
  {
    if behaviors == [] || behaviors[0].pipelineBehavior.kind.Respond? then 0
    else 1 + FirstResponder(behaviors[1..])
  }

  /** Instantiating and entering each behavior, in order. */
  function Descent(behaviors: seq<Registration>): (r: seq<Event>)
    ensures |r| == 2 * |behaviors|
    ensures forall i :: 0 <= i < |behaviors| ==>
      r[2 * i] == CreatePipelineBehavior(behaviors[i].pipelineBehavior)
      && r[2 * i + 1] == HandleBehavior(behaviors[i].pipelineBehavior)
    ensures forall e :: e in r ==> e.CreatePipelineBehavior? || e.HandleBehavior?
  {
    if behaviors == [] then []
    else
      var b := behaviors[0].pipelineBehavior;
      [CreatePipelineBehavior(b), HandleBehavior(b)] + Descent(behaviors[1..])
  }

  /** The `add_data` calls made on the way back up, innermost behavior first. */
  function Ascent(behaviors: seq<Registration>): (r: seq<Event>)
    ensures forall e :: e in r ==> e.AddData?
  {
    if behaviors == [] then []
    else
      var b := behaviors[0].pipelineBehavior;
      Ascent(behaviors[1..]) + (match b.kind case CallNextThenAddData(key) => [AddData(b, key)] case Respond(_) => [])
  }

  /** The way down: every behavior entered, then the handler if no behavior responded. */
  function Down(handler: RequestHandlerClass, behaviors: seq<Registration>): seq<Event> {
    var j := FirstResponder(behaviors);
    if j == |behaviors| then Descent(behaviors) + [HandleRequest(handler)] else Descent(behaviors[..j + 1])
  }

  function Unwound(handler: RequestHandlerClass, behaviors: seq<Registration>): Run {
    var j := FirstResponder(behaviors);
    var reply := if j == |behaviors| then handler.reply else behaviors[j].pipelineBehavior.kind.reply;
    var up := if reply.Returned? then Ascent(behaviors[..j]) else [];
    Run(Down(handler, behaviors) + up, reply)
  }

  /** Unwinding behind a behavior that calls its continuation wraps the rest of the run. */
  lemma UnwoundCons(handler: RequestHandlerClass, s: seq<Registration>, key: string)
    requires s != [] && s[0].pipelineBehavior.kind == CallNextThenAddData(key)
    ensures var b := s[0].pipelineBehavior;
      var entered := [CreatePipelineBehavior(b), HandleBehavior(b)];
      var rest := Unwound(handler, s[1..]);
      Unwound(handler, s)
        == if rest.reply.Raised? then Run(entered + rest.trace, rest.reply)
           else Run(entered + rest.trace + [AddData(b, key)], rest.reply)
  {
    var b := s[0].pipelineBehavior;
    var entered := [CreatePipelineBehavior(b), HandleBehavior(b)];
    var s' := s[1..];
    var j' := FirstResponder(s');
    assert FirstResponder(s) == j' + 1;
    var down' := Down(handler, s');
    DownCons(handler, s, key);
    AscentCons(s, key);
    var rest := Unwound(handler, s');
    if rest.reply.Raised? {
      AppendAssoc(entered, down', []);
    } else {
      AppendAssoc4(entered, down', Ascent(s'[..j']), [AddData(b, key)]);
    }
  }

  /** The way down behind a behavior that calls its continuation. */
  lemma DownCons(handler: RequestHandlerClass, s: seq<Registration>, key: string)
    requires s != [] && s[0].pipelineBehavior.kind == CallNextThenAddData(key)
    ensures FirstResponder(s) == FirstResponder(s[1..]) + 1
    ensures Down(handler, s)
      == [CreatePipelineBehavior(s[0].pipelineBehavior), HandleBehavior(s[0].pipelineBehavior)] + Down(handler, s[1..])
  {
    var b := s[0].pipelineBehavior;
    var entered := [CreatePipelineBehavior(b), HandleBehavior(b)];
    var s' := s[1..];
    var j' := FirstResponder(s');
    var j := j' + 1;
    assert FirstResponder(s) == j;
    if j' == |s'| {
      assert s == [s[0]] + s';
      assert Descent(s) == entered + Descent(s');
      AppendAssoc(entered, Descent(s'), [HandleRequest(handler)]);
    } else {
      assert s[..j + 1][0] == s[0] && s[..j + 1][1..] == s'[..j' + 1];
    }
  }

  /** The ascent behind a behavior that calls its continuation ends with its data. */
  lemma AscentCons(s: seq<Registration>, key: string)
    requires s != [] && s[0].pipelineBehavior.kind == CallNextThenAddData(key)
    ensures var j' := FirstResponder(s[1..]);
      Ascent(s[..j' + 1]) == Ascent(s[1..][..j']) + [AddData(s[0].pipelineBehavior, key)]
  {
    var j' := FirstResponder(s[1..]);
    assert s[..j' + 1][0] == s[0] && s[..j' + 1][1..] == s[1..][..j'];
  }

  lemma AppendAssoc<T>(a: seq<T>, b: seq<T>, c: seq<T>)
    ensures (a + b) + c == a + (b + c)
  {
  }

  lemma AppendAssoc4<T>(a: seq<T>, b: seq<T>, c: seq<T>, d: seq<T>)
    ensures (a + b) + (c + d) == a + (b + c) + d
  {
  }

  /** Unwinding from a behavior that does not call its continuation stops at it. */
  lemma UnwoundRespond(handler: RequestHandlerClass, s: seq<Registration>, reply: Reply)
    requires s != [] && s[0].pipelineBehavior.kind == Respond(reply)
    ensures var b := s[0].pipelineBehavior;
      Unwound(handler, s) == Run([CreatePipelineBehavior(b), HandleBehavior(b)], reply)
  {
    var b := s[0].pipelineBehavior;
    assert FirstResponder(s) == 0;
    assert s[..1] == [s[0]] && [s[0]][1..] == [];
    assert Descent(s[..1]) == [CreatePipelineBehavior(b), HandleBehavior(b)] + Descent([]);
  }

  /** The nested continuations perform exactly the flat run. */
  lemma {:induction false} StageUnwinds(handler: RequestHandlerClass, behaviors: seq<Registration>, index: nat)
    requires index < |behaviors|
    ensures Stage(handler, behaviors, index) == Unwound(handler, behaviors[index..])
    decreases |behaviors| - index
  {
    var s := behaviors[index..];
    assert s[0] == behaviors[index] && s[1..] == behaviors[index + 1..];
    match behaviors[index].pipelineBehavior.kind
    case Respond(reply) =>
      UnwoundRespond(handler, s, reply);
    case CallNextThenAddData(key) =>
      ContinuationUnwinds(handler, behaviors, index);
      UnwoundCons(handler, s, key);
  }

  /** Calling continuation `index` performs the flat run of the behaviors after `index`. */
  lemma {:induction false} ContinuationUnwinds(handler: RequestHandlerClass, behaviors: seq<Registration>, index: nat)
    requires index < |behaviors|
    ensures Continuation(handler, behaviors, index) == Unwound(handler, behaviors[index + 1..])
    decreases |behaviors| - index, 0
  {
    if index + 1 == |behaviors| {
      assert behaviors[index + 1..] == [];
      assert Unwound(handler, []) == Run(Descent([]) + [HandleRequest(handler)] + Ascent([]), handler.reply);
    } else {
      StageUnwinds(handler, behaviors, index + 1);
    }
  }

  // ----- what can be observed of a run -------------------------------------

  function Classes(behaviors: seq<Registration>): (r: seq<PipelineBehaviorClass>)
    ensures |r| == |behaviors|
    ensures forall i :: 0 <= i < |behaviors| ==> r[i] == behaviors[i].pipelineBehavior
  {
    if behaviors == [] then [] else [behaviors[0].pipelineBehavior] + Classes(behaviors[1..])
  }

  /** The keys a chain of "call next, then add data" behaviors adds, outermost first. */
  function DeclaredKeys(behaviors: seq<Registration>): seq<string> {
    if behaviors == [] then []
    else
      (match behaviors[0].pipelineBehavior.kind case CallNextThenAddData(key) => [key] case Respond(_) => [])
      + DeclaredKeys(behaviors[1..])
  }

  function Reverse<T>(s: seq<T>): seq<T> {
    if s == [] then [] else Reverse(s[1..]) + [s[0]]
  }

  /** The behaviors the pipeline factory was called with, in order. */
  function Instantiated(trace: seq<Event>): seq<PipelineBehaviorClass> {
    if trace == [] then []
    else (if trace[0].CreatePipelineBehavior? then [trace[0].behavior] else []) + Instantiated(trace[1..])
  }

  /**
   * The keys of the `add_data` calls, in call order; when the keys are
   * distinct these are the keys of the response's data in insertion order.
   */
  function DataKeys(trace: seq<Event>): seq<string> {
    if trace == [] then []
    else (if trace[0].AddData? then [trace[0].key] else []) + DataKeys(trace[1..])
  }

  lemma {:induction false} ObservationsConcat(t1: seq<Event>, t2: seq<Event>)
    ensures Instantiated(t1 + t2) == Instantiated(t1) + Instantiated(t2)
    ensures DataKeys(t1 + t2) == DataKeys(t1) + DataKeys(t2)
    decreases |t1|
  {
    if t1 == [] {
      assert t1 + t2 == t2;
    } else {
      assert (t1 + t2)[0] == t1[0] && (t1 + t2)[1..] == t1[1..] + t2;
      ObservationsConcat(t1[1..], t2);
    }
  }

  lemma {:induction false} DescentObservations(behaviors: seq<Registration>)
    ensures Instantiated(Descent(behaviors)) == Classes(behaviors)
    ensures DataKeys(Descent(behaviors)) == []
    decreases |behaviors|
  {
    if behaviors != [] {
      var b := behaviors[0].pipelineBehavior;
      var entered := [CreatePipelineBehavior(b), HandleBehavior(b)];
      DescentObservations(behaviors[1..]);
      ObservationsConcat(entered, Descent(behaviors[1..]));
      ObservationsConcat([CreatePipelineBehavior(b)], [HandleBehavior(b)]);
      assert entered == [CreatePipelineBehavior(b)] + [HandleBehavior(b)];
      assert Classes(behaviors) == [b] + Classes(behaviors[1..]);
    }
  }

  lemma {:induction false} AscentObservations(behaviors: seq<Registration>)
    ensures Instantiated(Ascent(behaviors)) == []
    ensures DataKeys(Ascent(behaviors)) == Reverse(DeclaredKeys(behaviors))
    decreases |behaviors|
  {
    if behaviors != [] {
      var b := behaviors[0].pipelineBehavior;
      AscentObservations(behaviors[1..]);
      match b.kind
      case CallNextThenAddData(key) =>
        ObservationsConcat(Ascent(behaviors[1..]), [AddData(b, key)]);
        assert DeclaredKeys(behaviors) == [key] + DeclaredKeys(behaviors[1..]);
        assert ([key] + DeclaredKeys(behaviors[1..]))[1..] == DeclaredKeys(behaviors[1..]);
      case Respond(_) =>
        assert Ascent(behaviors) == Ascent(behaviors[1..]);
        assert DeclaredKeys(behaviors) == [] + DeclaredKeys(behaviors[1..]);
        assert [] + DeclaredKeys(behaviors[1..]) == DeclaredKeys(behaviors[1..]);
    }
  }

  // ----- properties of the chain -------------------------------------------

  /**
   * Behaviors that all call their continuation run nested: each is instantiated
   * and entered in order, the handler runs innermost, its reply comes back
   * unchanged, and the data keys are added in reverse order.
   */
  lemma {:induction false} ChainNests(handler: RequestHandlerClass, behaviors: seq<Registration>)
    requires forall i :: 0 <= i < |behaviors| ==> behaviors[i].pipelineBehavior.kind.CallNextThenAddData?
    requires handler.reply.Returned?
    ensures Unwound(handler, behaviors).reply == handler.reply
    ensures Unwound(handler, behaviors).trace == Descent(behaviors) + [HandleRequest(handler)] + Ascent(behaviors)
    ensures Instantiated(Unwound(handler, behaviors).trace) == Classes(behaviors)
    ensures DataKeys(Unwound(handler, behaviors).trace) == Reverse(DeclaredKeys(behaviors))
  {
    var down := Descent(behaviors) + [HandleRequest(handler)];
    assert FirstResponder(behaviors) == |behaviors|;
    assert behaviors[..|behaviors|] == behaviors;
    DescentObservations(behaviors);
    AscentObservations(behaviors);
    ObservationsConcat(Descent(behaviors), [HandleRequest(handler)]);
    ObservationsConcat(down, Ascent(behaviors));
  }

  /**
   * A behavior that does not call its continuation ends the chain: its reply is
   * the result, the handler never runs, no later behavior is instantiated, and
   * the handler is never instantiated by the chain.
   */
  lemma {:induction false} ShortCircuitStops(handler: RequestHandlerClass, behaviors: seq<Registration>, j: nat)
    requires j < |behaviors| && behaviors[j].pipelineBehavior.kind.Respond?
    requires forall i :: 0 <= i < j ==> behaviors[i].pipelineBehavior.kind.CallNextThenAddData?
    ensures Unwound(handler, behaviors).reply == behaviors[j].pipelineBehavior.kind.reply
    ensures HandleRequest(handler) !in Unwound(handler, behaviors).trace
    ensures Instantiated(Unwound(handler, behaviors).trace) == Classes(behaviors[..j + 1])
    ensures Unwound(handler, behaviors).trace ==
      Descent(behaviors[..j + 1])
      + (if behaviors[j].pipelineBehavior.kind.reply.Returned? then Ascent(behaviors[..j]) else [])
  {
    FirstResponderIs(behaviors, j);
    var prefix := behaviors[..j + 1];
    var up := if behaviors[j].pipelineBehavior.kind.reply.Returned? then Ascent(behaviors[..j]) else [];
    assert Unwound(handler, behaviors).trace == Descent(prefix) + up;
    assert HandleRequest(handler) !in Descent(prefix);
    assert HandleRequest(handler) !in up;
    DescentObservations(prefix);
    AscentObservations(behaviors[..j]);
    ObservationsConcat(Descent(prefix), up);
  }

  lemma FirstResponderIs(behaviors: seq<Registration>, j: nat)
    requires j < |behaviors| && behaviors[j].pipelineBehavior.kind.Respond?
    requires forall i :: 0 <= i < j ==> behaviors[i].pipelineBehavior.kind.CallNextThenAddData?
    ensures FirstResponder(behaviors) == j
  {
  }

  /** An exception raised inside the chain travels up without any data being added. */
  lemma ExceptionAddsNoData(handler: RequestHandlerClass, behaviors: seq<Registration>)
    requires Unwound(handler, behaviors).reply.Raised?
    ensures DataKeys(Unwound(handler, behaviors).trace) == []
  {
    var j := FirstResponder(behaviors);
    if j == |behaviors| {
      DescentObservations(behaviors);
      ObservationsConcat(Descent(behaviors), [HandleRequest(handler)]);
      ObservationsConcat(Descent(behaviors) + [HandleRequest(handler)], []);
    } else {
      DescentObservations(behaviors[..j + 1]);
      ObservationsConcat(Descent(behaviors[..j + 1]), []);
    }
  }

  /** The handler is instantiated before the chain starts, and the chain never instantiates it. */
  lemma ChainNeverCreatesHandler(handler: RequestHandlerClass, behaviors: seq<Registration>)
    ensures forall e :: e in Unwound(handler, behaviors).trace ==> !e.CreateRequestHandler? && !e.CreateNotificationHandler?
  {
  }

  /**
   * Two behaviors wrapped around the handler: the one registered first is
   * outermost, so the keys are added innermost first.
   */
  lemma TwoBehaviorsNest(handler: RequestHandlerClass, first: Registration, second: Registration, k1: string, k2: string)
    requires handler.reply.Returned?
    requires first.pipelineBehavior.kind == CallNextThenAddData(k1)
    requires second.pipelineBehavior.kind == CallNextThenAddData(k2)
    ensures var run := Unwound(handler, [first, second]);
      var trace := [CreateRequestHandler(handler)] + run.trace;
      && run.reply == handler.reply
      && DataKeys(trace) == [k2, k1]
      && Instantiated(trace) == [first.pipelineBehavior, second.pipelineBehavior]
  {
    var behaviors := [first, second];
    ChainNests(handler, behaviors);
    ObservationsConcat([CreateRequestHandler(handler)], Unwound(handler, behaviors).trace);
    assert behaviors[1..] == [second] && behaviors[1..][1..] == [];
    assert DeclaredKeys(behaviors) == [k1] + ([k2] + DeclaredKeys([]));
    assert Classes(behaviors) == [first.pipelineBehavior] + ([second.pipelineBehavior] + Classes([]));
    assert Reverse([k1, k2]) == Reverse([k2]) + [k1];
  }
}
