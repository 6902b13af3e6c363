/** Failure-compatible wrappers shared by the model, and the ways parsing a logger export fails. */
module Wrappers {

  datatype Option<+T> = None | Some(value: T)

  datatype Result<+T, +E> = Success(value: T) | Failure(error: E)

  /**
   * Every place where the modelled part of the import (the header scan, the field extractors, the
   * metadata checks and the label handling) stops with an exception.
   */
  datatype Error =
    | MissingComma        // a header field with no comma: `split(",", 2)[1]` or `rsplit(",", 1)[1]` is out of range
    | LabelWithoutColon   // the last segment of a field reads `LBL` but has no `:` after it
    | StreamExhausted     // `next` on the file after its last line: no column-definition line was found
    | MissingTitleValue   // the first line has no `:`, so the title has no second element
    | MissingSerialNumber // no line before the column-definition line carried a serial number
    | DuplicateNames      // the column-definition line names two columns alike, which the table reader refuses
    | DuplicateColumns    // two data columns carry the same label after renaming, so the filter cannot reindex

  /** The errors a single header field can raise while it is being described. */
  predicate IsFieldError(e: Error) {
    e == MissingComma || e == LabelWithoutColon
  }
}
