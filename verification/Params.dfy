/** System-wide constants that every part of the model leaves arbitrary. */
module Params {
  type Positive = x: nat | 1 <= x witness 1

  /** Rows in one chunk of a column, and slots in one chunk of an array. */
  const CHUNK_SIZE: Positive

  /** Number of nodes in the system. */
  const NUM_NODES: Positive

  datatype Option<+T> = None | Some(value: T)
}
