/** Outcomes shared by both translators. */
module Results {

  datatype Option<T> = None | Some(value: T)

  /** Why a translation produced no schema.  `NoTopLevelFields` is the error
      the Avro entry point returns; `Malformed` stands for the Go runtime panic
      that a failed type assertion raises on a node of an unexpected shape. */
  datatype Error = NoTopLevelFields | Malformed

  datatype Result<T> = Ok(value: T) | Err(error: Error)
}
