/** Failure-compatible wrappers shared by the whole model, and the error kinds
    the SQL layer (database/sql over SQLite) can report. */
module Common {

  /** Go's `(*T)(nil)` versus a present value. */
  datatype Option<+T> = None | Some(value: T) {
    predicate IsFailure() { None? }

    function PropagateFailure<U>(): Option<U>
      requires None?
    {
      None
    }

    function Extract(): T
      requires Some?
    {
      value
    }
  }

  /** A Go `(value, error)` pair with exactly one side present. */
  datatype Result<+T, +E> = Ok(value: T) | Err(error: E) {
    predicate IsFailure() { Err? }

    function PropagateFailure<U>(): Result<U, E>
      requires Err?
    {
      Err(error)
    }

    function Extract(): T
      requires Ok?
    {
      value
    }
  }

  /** A Go function that returns only an `error`. */
  datatype Outcome<+E> = Pass | Fail(error: E)

  /** What a call into the database can fail with.
      - `NoRows`: `sql.ErrNoRows`, or the stores' own "zero rows affected".
      - `UniqueViolation`: SQLite's "UNIQUE constraint failed" error.
      - `ArgumentCount`: database/sql refusing a statement whose placeholder
        count differs from the number of bound arguments.
      - `Faulted`: any failure outside this model (I/O, locking, a closed
        connection, a failed `Begin` or `Commit`). */
  datatype DbError = NoRows | UniqueViolation | ArgumentCount(want: nat, got: nat) | Faulted

  /** Go's `int64` range. */
  const MinInt64: int := -0x8000_0000_0000_0000
  const MaxInt64: int := 0x7fff_ffff_ffff_ffff

  predicate IsInt64(n: int) { MinInt64 <= n <= MaxInt64 }
}
