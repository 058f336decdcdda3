/** The application's exception taxonomy: each kind keeps its message and maps to an HTTP status. */
module Errors {
  import opened Wrappers

  /** One constructor per class of the `AppError` hierarchy. */
  datatype AppError =
    | BaseError(message: string, code: int)           // `AppError(message, status_code=500)` itself
    | StorageError(message: string)
    | ValidationError(message: string)
    | OCRFailure(message: string)
    | VisionFailure(message: string)
    | GraphBuildFailure(message: string)
    | MermaidSyntaxError(message: string, code: int)  // inherits the base constructor
    | RenderFailed(message: string)
  {
    /** The HTTP status code the error is reported with. */
    function Status(): (status: int)
      ensures (BaseError? || MermaidSyntaxError?) ==> status == code
      ensures ValidationError? <==> status == 400 && !(BaseError? || MermaidSyntaxError?)
      ensures GraphBuildFailure? <==> status == 422 && !(BaseError? || MermaidSyntaxError?)
      ensures VisionFailure? <==> status == 502 && !(BaseError? || MermaidSyntaxError?)
      ensures (StorageError? || OCRFailure? || RenderFailed?) <==> status == 500 && !(BaseError? || MermaidSyntaxError?)
    {
      match this
      case BaseError(_, c) => c
      case StorageError(_) => 500
      case ValidationError(_) => 400
      case OCRFailure(_) => 500
      case VisionFailure(_) => 502
      case GraphBuildFailure(_) => 422
      case MermaidSyntaxError(_, c) => c
      case RenderFailed(_) => 500
    }
  }

  /** The status code the base constructor uses when none is passed. */
  const DefaultStatus := 500

  /** The messages used by the constructors that are called without one. */
  const OCRFailureDefault := "Text extraction failed"
  const VisionFailureDefault := "Diagram analysis failed"
  const GraphBuildFailureDefault := "Could not build diagram structure"
  const RenderFailedDefault := "Image rendering failed"

  /** `OCRFailure(message)`; `None` stands for a call without a message. */
  function NewOCRFailure(message: Option<string>): (e: AppError)
    ensures e.OCRFailure? && e.Status() == 500
    ensures message.Some? ==> e.message == message.value
    ensures message.None? ==> e.message == OCRFailureDefault
  {
    OCRFailure(match message case Some(m) => m case None => OCRFailureDefault)
  }

  /** `VisionFailure(message)`; `None` stands for a call without a message. */
  function NewVisionFailure(message: Option<string>): (e: AppError)
    ensures e.VisionFailure? && e.Status() == 502
    ensures message.Some? ==> e.message == message.value
    ensures message.None? ==> e.message == VisionFailureDefault
  {
    VisionFailure(match message case Some(m) => m case None => VisionFailureDefault)
  }

  /** `GraphBuildFailure(message)`; `None` stands for a call without a message. */
  function NewGraphBuildFailure(message: Option<string>): (e: AppError)
    ensures e.GraphBuildFailure? && e.Status() == 422
    ensures message.Some? ==> e.message == message.value
    ensures message.None? ==> e.message == GraphBuildFailureDefault
  {
    GraphBuildFailure(match message case Some(m) => m case None => GraphBuildFailureDefault)
  }

  /** `RenderFailed(message)`; `None` stands for a call without a message. */
  function NewRenderFailed(message: Option<string>): (e: AppError)
    ensures e.RenderFailed? && e.Status() == 500
    ensures message.Some? ==> e.message == message.value
    ensures message.None? ==> e.message == RenderFailedDefault
  {
    RenderFailed(match message case Some(m) => m case None => RenderFailedDefault)
  }

  /** `MermaidSyntaxError(message)`: the base constructor with its default status. */
  function NewMermaidSyntaxError(message: string): (e: AppError)
    ensures e.MermaidSyntaxError? && e.message == message && e.Status() == DefaultStatus
  {
    MermaidSyntaxError(message, DefaultStatus)
  }

  /** What a Python call can raise: an application error, or a built-in exception by class name. */
  datatype Raised =
    | App(error: AppError)
    | Builtin(kind: string, message: string)
}
