/**
 * The canvas runtime: the state the event-loop closure keeps between
 * invocations, how one event changes it and which handler callback it causes,
 * and the start-up sequence around the loop.
 *
 * The closure is specified twice over: `React` and `Trace` say, as values, what
 * one event and a whole sequence of events do; the class `Runtime` is the
 * closure itself, with fields for its captured variables, and its methods are
 * proved to follow `React` and `Trace`.
 */
module Canvas {
  import opened Wrappers
  import opened Winit
  import opened EventHandler
  import Errors

  /** The options the canvas is created with. */
  datatype CanvasOptions = CanvasOptions(width: uint32, height: uint32, title: string)

  /**
   * What the closure captures and never changes: the requested size, the
   * handler's answer to `setup` (it is asked at most once, so one answer covers
   * every handler), and the window's conversion of a physical position into a
   * logical one under a given scale factor.
   */
  datatype Env = Env(
    width: uint32,
    height: uint32,
    setupResult: SetupResult,
    toLogical: (PhysicalPosition, real) -> LogicalPosition)

  /** The captured variables the closure updates. */
  datatype LoopState = LoopState(isInitialized: bool, cursor: LogicalPosition, exitRequested: bool)

  /** Not yet set up, cursor at the origin, no exit requested. */
  const Initial: LoopState := LoopState(false, LogicalPosition(0.0, 0.0), false)

  /** One event as delivered: the event and the window's scale factor at that moment. */
  datatype Delivery = Delivery(event: Event, scaleFactor: real)

  /**
   * What one invocation of the closure does: the next state, the handler call
   * it makes (at most one), and the setup failure it logs (if any).
   */
  datatype Reaction = Reaction(next: LoopState, call: Option<HandlerCall>, logged: Option<string>)

  /** The closure's reaction to `e` in state `s`. */
  function React(env: Env, s: LoopState, e: Event, scaleFactor: real): Reaction
  {
    match e
    case Resumed =>
      if s.isInitialized then Reaction(s, None, None)
      else
        Reaction(s.(isInitialized := true), Some(Setup(env.width, env.height)),
                 if env.setupResult.SetupErr? then Some(env.setupResult.reason) else None)
    case WindowEvent(_, we) =>
      (match we
      case Resized(w, h) =>
        if w != 0 && h != 0 then Reaction(s, Some(Resize(w, h)), None)
        else Reaction(s, None, None)
      case CursorMoved(p) =>
        var l := env.toLogical(p, scaleFactor);
        Reaction(s.(cursor := l), Some(CursorMove(l.x, l.y)), None)
      case MouseInput(state, button) =>
        Reaction(s, Some(MouseButton(s.cursor.x, s.cursor.y, button, state == Pressed)), None)
      case KeyboardInput(state, key) =>
        Reaction(s, Some(KeyboardEvent(key, state == Pressed)), None)
      case CloseRequested =>
        Reaction(s.(exitRequested := true), None, None)
      case OtherWindowEvent =>
        Reaction(s, None, None))
    case OtherEvent =>
      Reaction(s, None, None)
  }

  /** The outcome of a sequence of events: final state, handler calls and logged failures. */
  datatype Outcome = Outcome(state: LoopState, calls: seq<HandlerCall>, logged: seq<string>)

  /** The outcome `o` followed by the reaction to one more delivery. */
  function Extend(env: Env, o: Outcome, d: Delivery): Outcome {
    var re := React(env, o.state, d.event, d.scaleFactor);
    Outcome(re.next, o.calls + ToSeq(re.call), o.logged + ToSeq(re.logged))
  }

  /** The outcome of delivering `ds`, in order, starting from state `s`. */
  function Trace(env: Env, s: LoopState, ds: seq<Delivery>): (r: Outcome)
    ensures |r.calls| <= |ds| && |r.logged| <= |ds|
    decreases |ds|
  {
    if ds == [] then Outcome(s, [], [])
    else Extend(env, Trace(env, s, ds[..|ds| - 1]), ds[|ds| - 1])
  }

  /** Delivering one more event extends the outcome by that event's reaction. */
  lemma TraceSnoc(env: Env, s: LoopState, ds: seq<Delivery>, d: Delivery)
    ensures Trace(env, s, ds + [d]) == Extend(env, Trace(env, s, ds), d)
  {
    assert (ds + [d])[..|ds|] == ds;
  }

  /** Extending does not look at the calls and failures that came before. */
  lemma ExtendAfter(env: Env, first: Outcome, mid: Outcome, d: Delivery)
    ensures var next := Extend(env, mid, d);
            Extend(env, Outcome(mid.state, first.calls + mid.calls, first.logged + mid.logged), d)
              == Outcome(next.state, first.calls + next.calls, first.logged + next.logged)
  {
    var re := React(env, mid.state, d.event, d.scaleFactor);
    assert first.calls + mid.calls + ToSeq(re.call) == first.calls + (mid.calls + ToSeq(re.call));
    assert first.logged + mid.logged + ToSeq(re.logged) == first.logged + (mid.logged + ToSeq(re.logged));
  }

  /** Delivering `a` and then `b` is delivering `b` from where `a` left off. */
  lemma {:induction false} TraceConcat(env: Env, s: LoopState, a: seq<Delivery>, b: seq<Delivery>)
    ensures var first := Trace(env, s, a);
            var second := Trace(env, first.state, b);
            Trace(env, s, a + b) == Outcome(second.state, first.calls + second.calls, first.logged + second.logged)
    decreases |b|
  {
    if b == [] {
      assert a + b == a;
    } else {
      var b', d := b[..|b| - 1], b[|b| - 1];
      assert b == b' + [d];
      assert a + b == (a + b') + [d];
      var first := Trace(env, s, a);
      var mid := Trace(env, first.state, b');
      TraceConcat(env, s, a, b');
      TraceSnoc(env, s, a + b', d);
      TraceSnoc(env, first.state, b', d);
      ExtendAfter(env, first, mid, d);
    }
  }

  /** A platform failure (event loop, window, or running the loop) is a graphics-API error. */
  function PlatformError(shown: string): (e: Errors.Error)
    ensures e.GraphicsAPI? && Errors.Display(e) == shown
  {
    Errors.GraphicsAPI(shown)
  }

  /**
   * The event-loop closure with its captured variables. `calls` records the
   * callbacks made on the handler, `history` the events delivered so far.
   */
  class Runtime {
    const env: Env
    var isInitialized: bool
    var cursor: LogicalPosition
    var exitRequested: bool
    ghost var calls: seq<HandlerCall>
    ghost var logged: seq<string>
    ghost var history: seq<Delivery>

    function State(): LoopState
      reads this
    {
      LoopState(isInitialized, cursor, exitRequested)
    }

    /** The state, the call log and the logged failures are those of the events delivered so far. */
    ghost predicate Valid()
      reads this
    {
      Trace(env, Initial, history) == Outcome(State(), calls, logged)
    }

    constructor (env: Env)
      ensures Valid()
      ensures this.env == env && State() == Initial
      ensures calls == [] && logged == [] && history == []
    {
      this.env := env;
      isInitialized := false;
      cursor := LogicalPosition(0.0, 0.0);
      exitRequested := false;
      calls := [];
      logged := [];
      history := [];
    }

    /** One invocation of the closure. */
    method Step(e: Event, scaleFactor: real) returns (failure: Option<string>)
      requires Valid()
      modifies this
      ensures Valid()
      ensures history == old(history) + [Delivery(e, scaleFactor)]
      ensures var re := React(env, old(State()), e, scaleFactor);
              State() == re.next
              && calls == old(calls) + ToSeq(re.call)
              && logged == old(logged) + ToSeq(re.logged)
              && failure == re.logged
    {
      TraceSnoc(env, Initial, history, Delivery(e, scaleFactor));
      history := history + [Delivery(e, scaleFactor)];
      failure := None;
      match e {
        case Resumed =>
          if !isInitialized {
            calls := calls + [Setup(env.width, env.height)];
            if env.setupResult.SetupErr? {
              // the only consequence of a failed setup is the log line
              failure := Some(env.setupResult.reason);
              logged := logged + [env.setupResult.reason];
            }
            isInitialized := true;
          }
        case WindowEvent(_, we) =>
          match we {
            case Resized(w, h) =>
              if w != 0 && h != 0 {
                calls := calls + [Resize(w, h)];
              }
            case CursorMoved(p) =>
              var l := env.toLogical(p, scaleFactor);
              cursor := l;
              calls := calls + [CursorMove(l.x, l.y)];
            case MouseInput(state, button) =>
              var x := cursor.x;
              var y := cursor.y;
              var pressed := state == Pressed;
              calls := calls + [MouseButton(x, y, button, pressed)];
            case KeyboardInput(state, key) =>
              var pressed := state == Pressed;
              calls := calls + [KeyboardEvent(key, pressed)];
            case CloseRequested =>
              exitRequested := true;
            case OtherWindowEvent =>
          }
        case OtherEvent =>
      }
    }

    /** The event loop driving the closure over the events the platform delivers. */
    method Run(ds: seq<Delivery>) returns (failures: seq<string>)
      requires Valid()
      modifies this
      ensures Valid()
      ensures history == old(history) + ds
      ensures State() == Trace(env, old(State()), ds).state
      ensures calls == old(calls) + Trace(env, old(State()), ds).calls
      ensures logged == old(logged) + Trace(env, old(State()), ds).logged
      ensures failures == Trace(env, old(State()), ds).logged
    {
      ghost var s0, history0 := State(), history;
      failures := [];
      var i := 0;
      while i < |ds|
        invariant 0 <= i <= |ds|
        invariant Valid()
        invariant history == history0 + ds[..i]
        invariant State() == Trace(env, s0, ds[..i]).state
        invariant failures == Trace(env, s0, ds[..i]).logged
      {
        assert ds[..i + 1] == ds[..i] + [ds[i]];
        TraceSnoc(env, s0, ds[..i], ds[i]);
        var failure := Step(ds[i].event, ds[i].scaleFactor);
        failures := failures + ToSeq(failure);
        i := i + 1;
      }
      assert ds[..i] == ds;
      TraceConcat(env, Initial, history0, ds);
    }
  }

  /** What the platform does during start-up and in the loop. */
  datatype Platform = Platform(
    eventLoopFailure: Option<string>,
    windowFailure: Option<string>,
    deliveries: seq<Delivery>,
    runFailure: Option<string>)

  /**
   * Creates the event loop and the window, then runs the closure over the
   * delivered events. A failure to create either one ends start-up with a
   * graphics-API error before any handler call; otherwise the handler sees
   * exactly the calls of the delivered events, and the outcome is the loop's
   * own failure, if any, as a graphics-API error.
   */
  method CreateAndRunCanvas(options: CanvasOptions, setupResult: SetupResult,
                            toLogical: (PhysicalPosition, real) -> LogicalPosition, platform: Platform)
    returns (r: Errors.Result<()>, ghost calls: seq<HandlerCall>, ghost logged: seq<string>)
    ensures r.Ok? <==> platform.eventLoopFailure.None? && platform.windowFailure.None? && platform.runFailure.None?
    ensures r.Err? ==> r.error.GraphicsAPI?
    ensures platform.eventLoopFailure.Some? ==> r == Errors.Err(Errors.GraphicsAPI(platform.eventLoopFailure.value))
    ensures platform.eventLoopFailure.None? && platform.windowFailure.Some? ==>
              r == Errors.Err(Errors.GraphicsAPI(platform.windowFailure.value))
    ensures platform.eventLoopFailure.None? && platform.windowFailure.None? && platform.runFailure.Some? ==>
              r == Errors.Err(Errors.GraphicsAPI(platform.runFailure.value))
    ensures platform.eventLoopFailure.Some? || platform.windowFailure.Some? ==> calls == [] && logged == []
    ensures platform.eventLoopFailure.None? && platform.windowFailure.None? ==>
              calls == Trace(Env(options.width, options.height, setupResult, toLogical), Initial, platform.deliveries).calls
              && logged == Trace(Env(options.width, options.height, setupResult, toLogical), Initial, platform.deliveries).logged
  {
    if platform.eventLoopFailure.Some? {
      return Errors.Err(PlatformError(platform.eventLoopFailure.value)), [], [];
    }
    if platform.windowFailure.Some? {
      return Errors.Err(PlatformError(platform.windowFailure.value)), [], [];
    }
    var canvas := new Runtime(Env(options.width, options.height, setupResult, toLogical));
    logged := canvas.Run(platform.deliveries);
    calls := canvas.calls;
    if platform.runFailure.Some? {
      return Errors.Err(PlatformError(platform.runFailure.value)), calls, logged;
    }
    r := Errors.Ok(());
  }
}
