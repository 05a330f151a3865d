/** The exceptions the editor raises, as one error datatype. The source
    raises each class with a fixed message; the message is recovered from
    the constructor by `Message`. `Fault` stands for a built-in Python
    exception that the code does not raise on purpose (a failed index, a
    division by zero, ...). */
module Exceptions {

  /** Built-in Python exceptions that surface from the modelled code. */
  datatype Fault = IndexError | TypeError | KeyError | ZeroDivisionError
                | OSError   // opening a file failed: a directory, no permission, ...

  /** Why a layer could not be added. */
  datatype AddingFailure = IncorrectName | DuplicateName

  /** Why a file could not be used. */
  datatype OpeningFailure = FileNotFound | CannotRead | BadFile

  datatype Error =
    | LayerAdding(adding: AddingFailure)
    | LayerCreating
    | MapCreating
    | FileOpening(opening: OpeningFailure)
    | NotVectorLayer
    | GeometryFailure          // the GeoJSON parser or the geometry backend raised
    | Fault(fault: Fault)

  /** The message each exception of the editor's own is raised with. */
  function Message(e: Error): string
    requires !e.GeometryFailure? && !e.Fault?
  {
    match e
    case LayerAdding(IncorrectName) => "Incorrect layer name"
    case LayerAdding(DuplicateName) => "Layer with this name is already added"
    case LayerCreating => "undefined type of layer"
    case MapCreating => "Undefined map tiles"
    case FileOpening(FileNotFound) => "File not found!"
    case FileOpening(CannotRead) => "File can't be read!"
    case FileOpening(BadFile) => "Bad file!"
    case NotVectorLayer => "Layer is not the vector layer!"
  }

  /** No two of the editor's own errors share a message, so the text shown
      to the user names the failure. */
  lemma MessagesTellErrorsApart(e1: Error, e2: Error)
    requires !e1.GeometryFailure? && !e1.Fault? && !e2.GeometryFailure? && !e2.Fault?
    ensures Message(e1) == Message(e2) ==> e1 == e2
  {
  }
}
