/**
 * The callbacks a canvas makes on its event handler. The handler's business
 * logic is not part of the core; what the core does to it is recorded as a
 * sequence of `HandlerCall`s, one per callback invocation, in order.
 */
module EventHandler {
  import opened Winit

  /** One invocation of a handler callback, with its arguments. */
  datatype HandlerCall =
    | Setup(width: uint32, height: uint32)
    | Stop
    | NextFrame
    | Resize(w: uint32, h: uint32)
    | CursorMove(x: real, y: real)
    | MouseButton(x: real, y: real, button: Winit.MouseButton, pressed: bool)
    | KeyboardEvent(key: Key, pressed: bool)

  /**
   * What the handler's `setup` answers. The reason of a failure is whatever
   * the handler's error displays as.
   */
  datatype SetupResult = SetupOk | SetupErr(reason: string)

  /** The number of `setup` invocations in a call log. */
  function SetupCount(calls: seq<HandlerCall>): (n: nat)
    ensures n <= |calls|
    ensures n == 0 <==> forall i :: 0 <= i < |calls| ==> !calls[i].Setup?
  {
    if calls == [] then 0
    else SetupCount(calls[..|calls| - 1]) + (if calls[|calls| - 1].Setup? then 1 else 0)
  }

  lemma {:induction false} SetupCountAppend(a: seq<HandlerCall>, b: seq<HandlerCall>)
    ensures SetupCount(a + b) == SetupCount(a) + SetupCount(b)
    decreases |b|
  {
    if b != [] {
      var b' := b[..|b| - 1];
      assert (a + b)[..|a + b| - 1] == a + b';
      SetupCountAppend(a, b');
    } else {
      assert a + b == a;
    }
  }
}
