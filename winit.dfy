/**
 * The platform vocabulary the canvas core consumes: the events winit delivers
 * to the event-loop closure and the values they carry. Only the shape of each
 * value matters to the core; none of them is interpreted here.
 */
module Winit {
  import opened Wrappers

  /** Rust's `u32`, used for window and surface dimensions. */
  type uint32 = x: int | 0 <= x < 0x1_0000_0000

  /** Rust's `u16`, the payload of `MouseButton::Other`. */
  type uint16 = x: int | 0 <= x < 0x1_0000

  /** Whether a key or button went down or came up. */
  datatype ElementState = Pressed | Released

  datatype MouseButton = Left | Right | Middle | Back | Forward | Other(id: uint16)

  /**
   * A logical key; the core passes it through to the handler untouched. A
   * named key is identified by its name, an unidentified one by a text form of
   * the platform's native key code.
   */
  datatype Key =
    | Named(name: string)
    | Character(text: string)
    | Unidentified(native: string)
    | Dead(ch: Option<char>)

  /**
   * Pointer coordinates. `f64` values become reals: the core only copies them,
   * except for the physical-to-logical conversion, which it delegates to the
   * window (see Canvas.Env).
   */
  datatype PhysicalPosition = PhysicalPosition(x: real, y: real)
  datatype LogicalPosition = LogicalPosition(x: real, y: real)

  /** Identifies the window a window event is addressed to. */
  datatype WindowId = WindowId(id: nat)

  /** The window events the closure distinguishes; all others are `OtherWindowEvent`. */
  datatype WindowEvent =
    | Resized(width: uint32, height: uint32)
    | CursorMoved(position: PhysicalPosition)
    | MouseInput(state: ElementState, button: MouseButton)
    | KeyboardInput(state: ElementState, key: Key)
    | CloseRequested
    | OtherWindowEvent

  /** A top-level event of the loop; every kind but these two is `OtherEvent`. */
  datatype Event =
    | Resumed
    | WindowEvent(windowId: WindowId, event: WindowEvent)
    | OtherEvent
}
