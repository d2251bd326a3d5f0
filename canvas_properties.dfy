/**
 * What the event-loop closure promises over whole sequences of events, proved
 * about `Canvas.Trace`, and what that means for a `Runtime` object.
 */
module CanvasProperties {
  import opened Wrappers
  import opened Winit
  import opened EventHandler
  import opened Canvas

  ghost predicate HasResumed(ds: seq<Delivery>) {
    exists i :: 0 <= i < |ds| && ds[i].event.Resumed?
  }

  predicate IsCloseRequested(d: Delivery) {
    d.event.WindowEvent? && d.event.event.CloseRequested?
  }

  ghost predicate HasCloseRequested(ds: seq<Delivery>) {
    exists i :: 0 <= i < |ds| && IsCloseRequested(ds[i])
  }

  /** A delivery of `CloseRequested` to window `id`. */
  function Close(id: WindowId, scaleFactor: real): Delivery {
    Delivery(WindowEvent(id, CloseRequested), scaleFactor)
  }

  lemma HasResumedSnoc(ds: seq<Delivery>, d: Delivery)
    ensures HasResumed(ds + [d]) <==> HasResumed(ds) || d.event.Resumed?
  {
    if HasResumed(ds + [d]) && !d.event.Resumed? {
      var i :| 0 <= i < |ds + [d]| && (ds + [d])[i].event.Resumed?;
      assert i < |ds| && ds[i] == (ds + [d])[i];
    }
    if HasResumed(ds) {
      var i :| 0 <= i < |ds| && ds[i].event.Resumed?;
      assert (ds + [d])[i] == ds[i];
    }
    if d.event.Resumed? {
      assert (ds + [d])[|ds|] == d;
    }
  }

  lemma HasCloseRequestedSnoc(ds: seq<Delivery>, d: Delivery)
    ensures HasCloseRequested(ds + [d]) <==> HasCloseRequested(ds) || IsCloseRequested(d)
  {
    var ds' := ds + [d];
    if HasCloseRequested(ds') && !IsCloseRequested(d) {
      var i :| 0 <= i < |ds'| && IsCloseRequested(ds'[i]);
      assert i < |ds| && ds[i] == ds'[i];
    }
    if HasCloseRequested(ds) {
      var i :| 0 <= i < |ds| && IsCloseRequested(ds[i]);
      assert ds'[i] == ds[i];
    }
    if IsCloseRequested(d) {
      assert ds'[|ds|] == d;
    }
  }

  /** The one-shot flag is set exactly when some `Resumed` has been seen. */
  lemma {:induction false} InitializedIffResumed(env: Env, s: LoopState, ds: seq<Delivery>)
    ensures Trace(env, s, ds).state.isInitialized <==> s.isInitialized || HasResumed(ds)
    decreases |ds|
  {
    if ds != [] {
      var ds', d := ds[..|ds| - 1], ds[|ds| - 1];
      assert ds == ds' + [d];
      InitializedIffResumed(env, s, ds');
      TraceSnoc(env, s, ds', d);
      HasResumedSnoc(ds', d);
    }
  }

  /** Exit has been requested exactly when some `CloseRequested` has been seen; it is never withdrawn. */
  lemma {:induction false} ExitIffCloseRequested(env: Env, s: LoopState, ds: seq<Delivery>)
    ensures Trace(env, s, ds).state.exitRequested <==> s.exitRequested || HasCloseRequested(ds)
    decreases |ds|
  {
    if ds != [] {
      var ds', d := ds[..|ds| - 1], ds[|ds| - 1];
      assert ds == ds' + [d];
      ExitIffCloseRequested(env, s, ds');
      TraceSnoc(env, s, ds', d);
      HasCloseRequestedSnoc(ds', d);
    }
  }

  /** One event's part in `SetupCalledAtMostOnce`. */
  lemma ReactSetup(env: Env, st: LoopState, e: Event, scaleFactor: real)
    ensures var re := React(env, st, e, scaleFactor);
            SetupCount(ToSeq(re.call)) == (if e.Resumed? && !st.isInitialized then 1 else 0)
            && (re.next.isInitialized <==> st.isInitialized || e.Resumed?)
  {
    var re := React(env, st, e, scaleFactor);
    if e.Resumed? && !st.isInitialized {
      assert ToSeq(re.call) == [Setup(env.width, env.height)];
      assert [Setup(env.width, env.height)][..0] == [];
    } else if re.call.Some? {
      assert ToSeq(re.call) == [re.call.value] && !re.call.value.Setup?;
      assert [re.call.value][..0] == [];
    }
  }

  /** One event's part in `SetupFailureOnlyLogged`. */
  lemma ReactSetupFailure(env: Env, st: LoopState, e: Event, scaleFactor: real, reason: string)
    ensures var failing := React(env.(setupResult := SetupErr(reason)), st, e, scaleFactor);
            var succeeding := React(env.(setupResult := SetupOk), st, e, scaleFactor);
            failing.next == succeeding.next && failing.call == succeeding.call
            && succeeding.logged == None
            && failing.logged == if e.Resumed? && !st.isInitialized then Some(reason) else None
  {
  }

  /**
   * `setup` is called once if the closure was not yet initialised and some
   * `Resumed` arrives, and never otherwise; in particular at most once over
   * any run that starts from the initial state.
   */
  lemma {:induction false} SetupCalledAtMostOnce(env: Env, s: LoopState, ds: seq<Delivery>)
    ensures SetupCount(Trace(env, s, ds).calls) == if !s.isInitialized && HasResumed(ds) then 1 else 0
    ensures s == Initial ==> SetupCount(Trace(env, s, ds).calls) <= 1
    decreases |ds|
  {
    if ds != [] {
      var ds', d := ds[..|ds| - 1], ds[|ds| - 1];
      assert ds == ds' + [d];
      SetupCalledAtMostOnce(env, s, ds');
      InitializedIffResumed(env, s, ds');
      TraceSnoc(env, s, ds', d);
      HasResumedSnoc(ds', d);
      var prev := Trace(env, s, ds');
      var re := React(env, prev.state, d.event, d.scaleFactor);
      SetupCountAppend(prev.calls, ToSeq(re.call));
      ReactSetup(env, prev.state, d.event, d.scaleFactor);
    }
  }

  /** Every `setup` call carries exactly the canvas options' width and height. */
  lemma {:induction false} SetupWithOptionsSize(env: Env, s: LoopState, ds: seq<Delivery>)
    ensures var calls := Trace(env, s, ds).calls;
            forall i :: 0 <= i < |calls| && calls[i].Setup? ==> calls[i] == Setup(env.width, env.height)
    decreases |ds|
  {
    if ds != [] {
      var ds', d := ds[..|ds| - 1], ds[|ds| - 1];
      assert ds == ds' + [d];
      SetupWithOptionsSize(env, s, ds');
      TraceSnoc(env, s, ds', d);
    }
  }

  /** The first `Resumed` of a fresh closure makes exactly one call, `setup` with the options' size. */
  lemma FirstResumedCallsSetup(env: Env, s: LoopState, ds: seq<Delivery>, k: nat)
    requires k < |ds| && ds[k].event.Resumed?
    requires !s.isInitialized && !HasResumed(ds[..k])
    ensures var before, after := Trace(env, s, ds[..k]), Trace(env, s, ds[..k + 1]);
            after.calls == before.calls + [Setup(env.width, env.height)]
            && after.state == before.state.(isInitialized := true)
  {
    assert ds[..k + 1] == ds[..k] + [ds[k]];
    InitializedIffResumed(env, s, ds[..k]);
    TraceSnoc(env, s, ds[..k], ds[k]);
  }

  /** A `Resumed` after the first one changes nothing and calls nothing. */
  lemma LaterResumedIgnored(env: Env, s: LoopState, ds: seq<Delivery>, k: nat)
    requires k < |ds| && ds[k].event.Resumed?
    requires s.isInitialized || HasResumed(ds[..k])
    ensures Trace(env, s, ds[..k + 1]) == Trace(env, s, ds[..k])
  {
    assert ds[..k + 1] == ds[..k] + [ds[k]];
    InitializedIffResumed(env, s, ds[..k]);
    TraceSnoc(env, s, ds[..k], ds[k]);
  }

  /**
   * A failing `setup` is only logged: the states and the handler calls are
   * those of a succeeding one (so the flag is still set, no exit is requested
   * and `setup` is not retried), and the failure is logged once, on the
   * initialising `Resumed`.
   */
  lemma {:induction false} SetupFailureOnlyLogged(env: Env, s: LoopState, ds: seq<Delivery>, reason: string)
    ensures var failing := Trace(env.(setupResult := SetupErr(reason)), s, ds);
            var succeeding := Trace(env.(setupResult := SetupOk), s, ds);
            failing.state == succeeding.state && failing.calls == succeeding.calls
            && succeeding.logged == []
            && failing.logged == if !s.isInitialized && HasResumed(ds) then [reason] else []
    decreases |ds|
  {
    var bad, good := env.(setupResult := SetupErr(reason)), env.(setupResult := SetupOk);
    if ds != [] {
      var ds', d := ds[..|ds| - 1], ds[|ds| - 1];
      assert ds == ds' + [d];
      SetupFailureOnlyLogged(env, s, ds', reason);
      InitializedIffResumed(bad, s, ds');
      HasResumedSnoc(ds', d);
      TraceSnoc(bad, s, ds', d);
      TraceSnoc(good, s, ds', d);
      ReactSetupFailure(env, Trace(bad, s, ds').state, d.event, d.scaleFactor, reason);
    }
  }

  /** Each delivery adds at most one handler call and at most one logged failure. */
  lemma AtMostOneCallPerDelivery(env: Env, s: LoopState, ds: seq<Delivery>, d: Delivery)
    ensures |Trace(env, s, ds + [d]).calls| <= |Trace(env, s, ds).calls| + 1
    ensures |Trace(env, s, ds + [d]).logged| <= |Trace(env, s, ds).logged| + 1
  {
    TraceSnoc(env, s, ds, d);
  }

  /** A `Resized` with a zero dimension changes nothing and calls nothing. */
  lemma ResizedToZeroIgnored(env: Env, s: LoopState, ds: seq<Delivery>, id: WindowId, w: uint32, h: uint32, scaleFactor: real)
    requires w == 0 || h == 0
    ensures Trace(env, s, ds + [Delivery(WindowEvent(id, Resized(w, h)), scaleFactor)]) == Trace(env, s, ds)
  {
    TraceSnoc(env, s, ds, Delivery(WindowEvent(id, Resized(w, h)), scaleFactor));
  }

  /** A `Resized` with both dimensions non-zero makes exactly one call, `resize` with those dimensions. */
  lemma ResizedForwarded(env: Env, s: LoopState, ds: seq<Delivery>, id: WindowId, w: uint32, h: uint32, scaleFactor: real)
    requires w != 0 && h != 0
    ensures var before := Trace(env, s, ds);
            Trace(env, s, ds + [Delivery(WindowEvent(id, Resized(w, h)), scaleFactor)])
              == Outcome(before.state, before.calls + [Resize(w, h)], before.logged)
  {
    TraceSnoc(env, s, ds, Delivery(WindowEvent(id, Resized(w, h)), scaleFactor));
  }

  /** No run ever asks the handler to resize to a zero dimension. */
  lemma {:induction false} ResizeCallsNonZero(env: Env, s: LoopState, ds: seq<Delivery>)
    ensures var calls := Trace(env, s, ds).calls;
            forall i :: 0 <= i < |calls| && calls[i].Resize? ==> calls[i].w != 0 && calls[i].h != 0
    decreases |ds|
  {
    if ds != [] {
      var ds', d := ds[..|ds| - 1], ds[|ds| - 1];
      assert ds == ds' + [d];
      ResizeCallsNonZero(env, s, ds');
      TraceSnoc(env, s, ds', d);
    }
  }

  /**
   * `CursorMoved` caches the logical position and makes exactly one call,
   * `cursor_move` with that position.
   */
  lemma CursorMovedCachedAndForwarded(env: Env, s: LoopState, ds: seq<Delivery>, id: WindowId, p: PhysicalPosition, scaleFactor: real)
    ensures var before := Trace(env, s, ds);
            var l := env.toLogical(p, scaleFactor);
            Trace(env, s, ds + [Delivery(WindowEvent(id, CursorMoved(p)), scaleFactor)])
              == Outcome(before.state.(cursor := l), before.calls + [CursorMove(l.x, l.y)], before.logged)
  {
    TraceSnoc(env, s, ds, Delivery(WindowEvent(id, CursorMoved(p)), scaleFactor));
  }

  /** The logical position of the most recent `CursorMoved` in `ds`, or `start` if there is none. */
  function LastCursor(env: Env, start: LogicalPosition, ds: seq<Delivery>): LogicalPosition
    decreases |ds|
  {
    if ds == [] then start
    else
      var d := ds[|ds| - 1];
      match d.event
      case WindowEvent(_, CursorMoved(p)) => env.toLogical(p, d.scaleFactor)
      case _ => LastCursor(env, start, ds[..|ds| - 1])
  }

  /** The cached cursor is that of the most recent `CursorMoved`; no other event changes it. */
  lemma {:induction false} CursorIsLastCursorMoved(env: Env, s: LoopState, ds: seq<Delivery>)
    ensures Trace(env, s, ds).state.cursor == LastCursor(env, s.cursor, ds)
    decreases |ds|
  {
    if ds != [] {
      var ds', d := ds[..|ds| - 1], ds[|ds| - 1];
      assert ds == ds' + [d];
      CursorIsLastCursorMoved(env, s, ds');
      TraceSnoc(env, s, ds', d);
    }
  }

  /**
   * `MouseInput` makes exactly one call, `mouse_button` at the position of the
   * most recent `CursorMoved` (the origin if there was none), pressed exactly
   * when the button went down; it changes no state.
   */
  lemma MouseInputAtLastCursor(env: Env, ds: seq<Delivery>, id: WindowId, state: ElementState, button: Winit.MouseButton, scaleFactor: real)
    ensures var before := Trace(env, Initial, ds);
            var at := LastCursor(env, LogicalPosition(0.0, 0.0), ds);
            Trace(env, Initial, ds + [Delivery(WindowEvent(id, MouseInput(state, button)), scaleFactor)])
              == Outcome(before.state, before.calls + [MouseButton(at.x, at.y, button, state == Pressed)], before.logged)
  {
    CursorIsLastCursorMoved(env, Initial, ds);
    TraceSnoc(env, Initial, ds, Delivery(WindowEvent(id, MouseInput(state, button)), scaleFactor));
  }

  /** `KeyboardInput` makes exactly one call, `keyboard_event`, pressed exactly when the key went down. */
  lemma KeyboardInputForwarded(env: Env, s: LoopState, ds: seq<Delivery>, id: WindowId, state: ElementState, key: Key, scaleFactor: real)
    ensures var before := Trace(env, s, ds);
            Trace(env, s, ds + [Delivery(WindowEvent(id, KeyboardInput(state, key)), scaleFactor)])
              == Outcome(before.state, before.calls + [KeyboardEvent(key, state == Pressed)], before.logged)
  {
    TraceSnoc(env, s, ds, Delivery(WindowEvent(id, KeyboardInput(state, key)), scaleFactor));
  }

  /** `CloseRequested` requests the exit and does nothing else. */
  lemma CloseRequestedOnlyExits(env: Env, s: LoopState, ds: seq<Delivery>, id: WindowId, scaleFactor: real)
    ensures var before := Trace(env, s, ds);
            Trace(env, s, ds + [Close(id, scaleFactor)])
              == Outcome(before.state.(exitRequested := true), before.calls, before.logged)
  {
    TraceSnoc(env, s, ds, Close(id, scaleFactor));
  }

  /** Every other window event, and every other event, changes nothing and calls nothing. */
  lemma OtherEventsIgnored(env: Env, s: LoopState, ds: seq<Delivery>, d: Delivery)
    requires d.event.OtherEvent? || (d.event.WindowEvent? && d.event.event.OtherWindowEvent?)
    ensures Trace(env, s, ds + [d]) == Trace(env, s, ds)
  {
    TraceSnoc(env, s, ds, d);
  }

  /** Two deliveries that differ at most in the window a window event is addressed to. */
  predicate SameButWindowId(d: Delivery, e: Delivery) {
    d.scaleFactor == e.scaleFactor &&
    (d.event == e.event ||
     (d.event.WindowEvent? && e.event.WindowEvent? && d.event.event == e.event.event))
  }

  /** The closure does not look at window ids: retargeting window events changes no outcome. */
  lemma {:induction false} WindowIdIgnored(env: Env, s: LoopState, ds: seq<Delivery>, es: seq<Delivery>)
    requires |ds| == |es|
    requires forall i :: 0 <= i < |ds| ==> SameButWindowId(ds[i], es[i])
    ensures Trace(env, s, ds) == Trace(env, s, es)
    decreases |ds|
  {
    if ds != [] {
      var n := |ds| - 1;
      assert ds == ds[..n] + [ds[n]] && es == es[..n] + [es[n]];
      WindowIdIgnored(env, s, ds[..n], es[..n]);
      TraceSnoc(env, s, ds[..n], ds[n]);
      TraceSnoc(env, s, es[..n], es[n]);
    }
  }

  /** The closure never calls `stop` or `next_frame`: it has no render cycle and no shutdown hook. */
  lemma {:induction false} NeverStopsOrRenders(env: Env, s: LoopState, ds: seq<Delivery>)
    ensures var calls := Trace(env, s, ds).calls;
            forall i :: 0 <= i < |calls| ==> !calls[i].Stop? && !calls[i].NextFrame?
    decreases |ds|
  {
    if ds != [] {
      var ds', d := ds[..|ds| - 1], ds[|ds| - 1];
      assert ds == ds' + [d];
      NeverStopsOrRenders(env, s, ds');
      TraceSnoc(env, s, ds', d);
    }
  }

  /** A valid runtime has called `setup` once if it is initialised and never otherwise. */
  lemma CanvasSetupAtMostOnce(c: Runtime)
    requires c.Valid()
    ensures SetupCount(c.calls) == if c.isInitialized then 1 else 0
  {
    SetupCalledAtMostOnce(c.env, Initial, c.history);
    InitializedIffResumed(c.env, Initial, c.history);
  }

  /**
   * A run of an 800 by 600 canvas: set-up, a resize to 1024 by 768, an ignored resize to 0 by 600, a cursor move to the
   * logical position (12.5, 7.0) and a press of the left button there.
   */
  lemma ScenarioResizeAndClick(env: Env, p: PhysicalPosition, scaleFactor: real, id: WindowId)
    requires env.width == 800 && env.height == 600
    requires env.toLogical(p, scaleFactor) == LogicalPosition(12.5, 7.0)
    ensures var ds := [Delivery(Resumed, scaleFactor),
                       Delivery(WindowEvent(id, Resized(1024, 768)), scaleFactor),
                       Delivery(WindowEvent(id, Resized(0, 600)), scaleFactor),
                       Delivery(WindowEvent(id, CursorMoved(p)), scaleFactor),
                       Delivery(WindowEvent(id, MouseInput(Pressed, Left)), scaleFactor)];
            Trace(env, Initial, ds).calls
              == [Setup(800, 600), Resize(1024, 768), CursorMove(12.5, 7.0), MouseButton(12.5, 7.0, Left, true)]
  {
    var d0 := Delivery(Resumed, scaleFactor);
    var d1 := Delivery(WindowEvent(id, Resized(1024, 768)), scaleFactor);
    var d2 := Delivery(WindowEvent(id, Resized(0, 600)), scaleFactor);
    var d3 := Delivery(WindowEvent(id, CursorMoved(p)), scaleFactor);
    var d4 := Delivery(WindowEvent(id, MouseInput(Pressed, Left)), scaleFactor);
    TraceSnoc(env, Initial, [], d0);
    TraceSnoc(env, Initial, [d0], d1);
    TraceSnoc(env, Initial, [d0, d1], d2);
    TraceSnoc(env, Initial, [d0, d1, d2], d3);
    TraceSnoc(env, Initial, [d0, d1, d2, d3], d4);
    assert [d0] == [] + [d0];
    assert [d0, d1] == [d0] + [d1];
    assert [d0, d1, d2] == [d0, d1] + [d2];
    assert [d0, d1, d2, d3] == [d0, d1, d2] + [d3];
    assert [d0, d1, d2, d3, d4] == [d0, d1, d2, d3] + [d4];
  }
}
