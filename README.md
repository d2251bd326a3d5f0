# wgpu-prog canvas core in Dafny

This project models the two pieces of logic in the `wgpu-prog` crate that are
more than winit/wgpu plumbing:

- **The canvas event dispatch** (`src/canvas.rs`). `create_and_run_canvas`
  creates an event loop and a window. It then runs a closure over every event
  the platform delivers. The closure keeps three things between invocations:
  a one-shot `is_initialized` flag, the cached logical cursor position
  (initially the origin), and the exit request. For each event it makes at
  most one callback on the user's `EventHandler`:
  - `setup` with the options' size, on the first `Resumed` only;
  - `resize` for a `Resized` with both dimensions non-zero;
  - `cursor_move` for a `CursorMoved`, after caching the logical position;
  - `mouse_button` at the cached position for a `MouseInput`;
  - `keyboard_event` for a `KeyboardInput`.

  A `CloseRequested` only requests the exit. Every other event is ignored.
- **The error taxonomy** (`src/error.rs`). There are five error kinds, each
  carrying a message, and the message is what the error displays. Every I/O
  error becomes `IO`. Surface errors are classified: `Lost` becomes
  `ContextLost("Lost")`, `OutOfMemory` becomes
  `OutOfMemory("Out of memory")`, and every other kind becomes `GraphicsAPI`
  carrying the error's own text.

Layout:

- `wrappers.dfy`: module `Wrappers`, with `Option`.
- `winit.dfy`: module `Winit`, the platform's event vocabulary.
- `errors.dfy`: module `Errors`, the error taxonomy.
- `event_handler.dfy`: module `EventHandler`, the handler callbacks as a call log.
- `canvas.dfy`: module `Canvas`. It holds `React` and `Trace`, which give one
  event's and a whole run's effect as values. It holds the class `Runtime`,
  which is the closure with its captured variables as fields. Its `Step` and
  `Run` methods are proved to follow `React` and `Trace`. It also holds
  `CreateAndRunCanvas`.
- `canvas_properties.dfy`: module `CanvasProperties`, the promises of the
  closure over whole event sequences.

The handler is external. What the core does to it is kept as a ghost log of
`HandlerCall`s. The handler's answer to `setup` is a parameter: the runtime
asks it at most once, so one answer covers every handler. The window's scale
factor is sampled at each delivery, so each event comes with it
(`Delivery`). The physical-to-logical conversion is a function parameter
(`Env.toLogical`). A failure of the event loop, the window or the loop run is
a parameter of `CreateAndRunCanvas` (`Platform`). The display text of an I/O
error or a surface error comes from crates outside the repository, so each
such error carries its text (`shown`).

What the code does, which a reader of a GPU canvas might not expect:

- `setup` is called on the first `Resumed` event, not unconditionally at
  start-up.
- A failing `setup` is only logged; it does not abort start-up.
- Window events are not filtered by window id.
- `stop` and `next_frame` are never called.
- There is no GPU context, no surface configuration and no render cycle.

## Model

| member | source | states |
|---|---|---|
| Errors.Display | src/error.rs:8-22 | every error kind displays exactly its carried message |
| Errors.FromIoError | src/error.rs:26-30 | any I/O error becomes an `IO` error whose text is the I/O error's formatted text |
| Errors.FromSurfaceError | src/error.rs:32-40 | `ContextLost` exactly for `Lost` (text "Lost"); `OutOfMemory` exactly for `OutOfMemory` (text "Out of memory"); `GraphicsAPI` with the error's own text exactly for every other kind; never `IO` or `Internal` |
| Canvas.PlatformError | src/canvas.rs:22-29 | a failure to create the event loop or the window, or to run the loop (line 82), becomes a `GraphicsAPI` error displaying the platform error's text |
| Canvas.Trace | src/canvas.rs:34-81 | a run of the closure makes at most as many handler calls, and logs at most as many failures, as there are deliveries |
| CanvasProperties.AtMostOneCallPerDelivery | src/canvas.rs:38-80 | each further delivery adds at most one handler call and at most one logged failure to a run |
| Canvas.Runtime.constructor | src/canvas.rs:31-32 | the closure starts uninitialised, with the cursor at (0, 0), no exit requested and no handler calls |
| Canvas.Runtime.Step | src/canvas.rs:35-81 | one invocation of the closure changes the captured variables, appends to the call log and reports the logged setup failure exactly as `React` says, and keeps the log equal to that of the whole delivery history |
| Canvas.Runtime.Run | src/canvas.rs:34-35 | driving the closure over a delivery sequence gives exactly the state, call log and logged failures of `Trace` over that sequence |
| Canvas.CreateAndRunCanvas | src/canvas.rs:13-85 | a failure to create the event loop or then the window returns that failure as `GraphicsAPI` with no handler call and nothing logged; otherwise the handler sees exactly the calls of the delivered events, the logged setup failures are those of the same run, and the result is `Ok` or the loop's failure as `GraphicsAPI` |
| CanvasProperties.InitializedIffResumed | src/canvas.rs:43-49 | after any run the flag is set exactly when it was set before or some `Resumed` was delivered |
| CanvasProperties.ExitIffCloseRequested | src/canvas.rs:76-76 | after any run exit is requested exactly when it was requested before or some `CloseRequested` was delivered; the request is never withdrawn |
| CanvasProperties.SetupCalledAtMostOnce | src/canvas.rs:43-49 | over any run `setup` is called once if the closure was uninitialised and a `Resumed` arrives, and never otherwise; at most once from the initial state |
| CanvasProperties.SetupWithOptionsSize | src/canvas.rs:44-44 | every `setup` call carries exactly the options' width and height |
| CanvasProperties.FirstResumedCallsSetup | src/canvas.rs:39-49 | the first `Resumed` of an uninitialised closure makes exactly one call, `setup(width, height)`, and sets the flag |
| CanvasProperties.LaterResumedIgnored | src/canvas.rs:43-49 | a `Resumed` after the flag is set changes no state, makes no call and logs nothing |
| CanvasProperties.SetupFailureOnlyLogged | src/canvas.rs:44-48 | with a failing `setup` every state and call log is that of a succeeding one: the flag is still set, no exit is requested, no retry happens; the failure is logged once, and only if `setup` was called |
| CanvasProperties.ResizedToZeroIgnored | src/canvas.rs:52-56 | a `Resized` with a zero width or height changes no state and makes no call |
| CanvasProperties.ResizedForwarded | src/canvas.rs:52-55 | a `Resized` with both dimensions non-zero makes exactly one call, `resize` with the same values, and changes no state |
| CanvasProperties.ResizeCallsNonZero | src/canvas.rs:52-55 | no run ever calls `resize` with a zero dimension |
| CanvasProperties.CursorMovedCachedAndForwarded | src/canvas.rs:57-63 | a `CursorMoved` caches the logical position and makes exactly one call, `cursor_move` with that position; nothing else changes |
| CanvasProperties.CursorIsLastCursorMoved | src/canvas.rs:57-63 | after any run the cached cursor is the logical position of the most recent `CursorMoved`, or the starting cursor if there was none; no other event changes it |
| CanvasProperties.MouseInputAtLastCursor | src/canvas.rs:64-71 | a `MouseInput` makes exactly one call, `mouse_button` at the most recent `CursorMoved` position or (0, 0), pressed exactly when the state is `Pressed`; it changes no state |
| CanvasProperties.KeyboardInputForwarded | src/canvas.rs:72-75 | a `KeyboardInput` makes exactly one call, `keyboard_event` with its key, pressed exactly when the state is `Pressed`; it changes no state |
| CanvasProperties.CloseRequestedOnlyExits | src/canvas.rs:76-76 | a `CloseRequested` sets the exit request and changes nothing else: no call, no log |
| CanvasProperties.OtherEventsIgnored | src/canvas.rs:77-79 | any other window event, and any other event, changes no state and makes no call |
| CanvasProperties.WindowIdIgnored | src/canvas.rs:51-51 | two delivery sequences that differ only in the window ids of window events give the same outcome |
| CanvasProperties.NeverStopsOrRenders | src/canvas.rs:35-81 | no run ever calls `stop` or `next_frame` |
| CanvasProperties.CanvasSetupAtMostOnce | src/canvas.rs:43-49 | a `Runtime` object has called `setup` once if it is initialised and never otherwise |
| CanvasProperties.ScenarioResizeAndClick | src/canvas.rs:39-70 | for an 800 by 600 canvas, `Resumed`, `Resized(1024, 768)`, `Resized(0, 600)`, a cursor move to logical (12.5, 7.0) and a left press give exactly `setup(800, 600)`, `resize(1024, 768)`, `cursor_move(12.5, 7.0)`, `mouse_button(12.5, 7.0, Left, true)` |

## Left out

- Creating the winit event loop, setting `ControlFlow::Poll`, building the
  window with its title and logical size, and `event_loop.run` itself are
  platform I/O. Only their failures are modelled, as parameters, and they are
  wrapped as `GraphicsAPI`.
- The platform decides when it stops delivering events after `exit()` is
  requested. `Runtime.Run` processes whatever sequence is delivered.
- `LogicalPosition::from_physical` is floating-point arithmetic. It is a
  function parameter, and coordinates are reals passed through unchanged.
- The `info!`, `debug!` and `error!` log lines are not modelled. The one that
  matters, the setup failure, is kept as its reason only (`logged`), without
  the message prefix.
- The `Display` text of `io::Error` and `wgpu::SurfaceError` is carried as a
  field. Those crates are not part of this model.
- `src/main.rs` is an entry point whose handler only logs each callback.
- The `Internal` error kind is declared, but nothing in the core constructs it.
- The GPU context, surface configuration, `render()` cycle and
  context-lost/out-of-memory recovery policy do not exist in this code.
  `stop` and `next_frame` are never called; `NeverStopsOrRenders` states this.
