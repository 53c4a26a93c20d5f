/** Failure-compatible wrappers used for the Go functions that return `(T, error)`. */
module Wrappers {

  datatype Option<+T> = None | Some(value: T)

  datatype Result<+T, +E> = Success(value: T) | Failure(error: E)
}

/** Go byte slices are sequences of bytes. */
module Bytes {

  type byte = b: int | 0 <= b < 256
}

/** `time.Duration` constants, in nanoseconds; clock readings are plain integers. */
module Durations {

  const Nanosecond: int := 1
  const Second: int := 1_000_000_000 * Nanosecond
  const Minute: int := 60 * Second
  const Hour: int := 60 * Minute
}

/** The error values declared in internal/data/models.go, plus the opaque I/O errors. */
module Models {

  datatype ModelError =
    | ErrNoRecord        // "record not found"
    | ErrEditConflict    // "edit conflict"
    | ErrDuplicateEmail  // returned by the user repository on a unique violation
    | ErrInternal        // any other error of the database driver
}
