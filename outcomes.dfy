/** Option and result types, and the `ValueError` kinds the store and the
    ingestion loop raise. */
module Outcomes {

  datatype Option<+T> = None | Some(value: T)

  /** What went wrong below a `ValueError`. */
  datatype Cause =
    | EmbeddingUnavailable   // the embedding service call raised
    | StoreRejected          // the Chroma collection call raised

  /** Every failure of the core surfaces as a Python `ValueError`; the
      constructor records which wrapper raised it. */
  datatype ValueError =
    | AddFailed(cause: Cause)          // "Failed to add documents to vector store"
    | QueryFailed(cause: Cause)        // "Failed to query similar documents"
    | DeleteFailed(cause: Cause)       // "Failed to delete document by filename"
    | ProcessFailed(inner: ValueError) // "Failed to process documents"

  datatype Result<+T> = Ok(value: T) | Err(error: ValueError)
}
