/**
 * The crate's error taxonomy: five kinds, each carrying its message, and the
 * conversions from the standard library's I/O error and from the graphics
 * API's surface-acquisition error.
 */
module Errors {

  datatype Error =
    | IO(err: string)
    | Internal(err: string)
    | GraphicsAPI(err: string)
    | ContextLost(err: string)
    | OutOfMemory(err: string)

  /** The crate's result type. */
  datatype Result<T> = Ok(value: T) | Err(error: Error)

  /** The text the error shows: for every kind, exactly its message. */
  function Display(e: Error): (s: string)
    ensures s == e.err
  {
    match e
    case IO(m) => m
    case Internal(m) => m
    case GraphicsAPI(m) => m
    case ContextLost(m) => m
    case OutOfMemory(m) => m
  }

  /** An I/O error of the standard library, seen through the text it formats to. */
  datatype IoError = IoError(shown: string)

  /** Every I/O error becomes an `IO` error that carries its formatted text. */
  function FromIoError(e: IoError): (r: Error)
    ensures r.IO?
    ensures Display(r) == e.shown
  {
    IO(e.shown)
  }

  /** The ways acquiring the next surface texture can fail. */
  datatype SurfaceErrorKind = Timeout | Outdated | Lost | OutOfMemory | Other

  /** A surface error of the graphics API together with the text it formats to. */
  datatype SurfaceError = SurfaceError(kind: SurfaceErrorKind, shown: string)

  /**
   * The classification of surface errors: a lost surface is `ContextLost`, an
   * exhausted memory is `OutOfMemory`, and every other kind is a generic
   * `GraphicsAPI` failure carrying the error's own text. It never yields `IO`
   * or `Internal`.
   */
  function FromSurfaceError(e: SurfaceError): (r: Error)
    ensures r.ContextLost? <==> e.kind == Lost
    ensures r.OutOfMemory? <==> e.kind == SurfaceErrorKind.OutOfMemory
    ensures r.GraphicsAPI? <==> e.kind !in {Lost, SurfaceErrorKind.OutOfMemory}
    ensures !r.IO? && !r.Internal?
    ensures e.kind == Lost ==> Display(r) == "Lost"
    ensures e.kind == SurfaceErrorKind.OutOfMemory ==> Display(r) == "Out of memory"
    ensures r.GraphicsAPI? ==> Display(r) == e.shown
  {
    match e.kind
    case Lost => ContextLost("Lost")
    case OutOfMemory => Error.OutOfMemory("Out of memory")
    case _ => GraphicsAPI(e.shown)
  }
}
