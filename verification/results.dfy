/** Outcomes of the ASE reader's operations.

    The C++ reader reports failure by throwing one of three exception
    classes; which class is thrown matters, because the scene reader only
    catches the object-level one.  Here each class is a variant of `Error`,
    and the reason it carries only says which check failed (the message
    text of the exceptions is not modelled).
 */
module Results {

  datatype Option<+T> = None | Some(value: T)

  /** Why the mesh parser gave up (`ASEMeshException`). */
  datatype MeshFailure =
    | NoMeshHeader
    | NoVertexCount
    | NoFaceCount
    | VertexCountMismatch(declared: nat, actual: nat)
    | FaceCountMismatch(declared: nat, actual: nat)

  /** Why the object parser gave up (`ASEObjectException`). */
  datatype ObjectFailure = NoObjectHeader | NoNodeName

  /** Why the scene reader gave up (`ASEReaderException`). */
  datatype ReaderFailure =
    | FirstObjectFailed(cause: ObjectFailure)
    | NoObjectsFound
    | NothingToSave

  datatype Error =
    | MeshErr(mesh: MeshFailure)
    | ObjectErr(obj: ObjectFailure)
    | ReaderErr(reader: ReaderFailure)

  /** Either a value or the exception that would have been thrown. */
  datatype Result<+T> = Ok(value: T) | Err(error: Error) {

    predicate IsFailure() {
      Err?
    }

    function PropagateFailure<U>(): Result<U>
      requires Err?
    {
      Err(error)
    }

    function Extract(): T
      requires Ok?
    {
      value
    }
  }
}
