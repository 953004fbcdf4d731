/** What a call of the client can end in. Rust's `Result` gives the first two cases;
    `Panic` stands for an index out of range, a failed `unwrap`/`expect` or an
    arithmetic overflow, all of which stop the running thread. Error texts are not kept. */
module Outcomes {
  datatype Outcome<+T> = Ok(value: T) | Err | Panic {
    predicate IsFailure() {
      !Ok?
    }

    function PropagateFailure<U>(): Outcome<U>
      requires !Ok?
    {
      if Err? then Err else Panic
    }

    function Extract(): T
      requires Ok?
    {
      value
    }

    /** `unwrap`: an error panics. */
    function Unwrap(): Outcome<T> {
      if Err? then Panic else this
    }
  }

  datatype Option<+T> = None | Some(value: T)

  const U32_LIMIT := 0x1_0000_0000
  const USIZE_LIMIT := 0x1_0000_0000_0000_0000

  type u32 = x: int | 0 <= x < U32_LIMIT
  type byte = x: int | 0 <= x < 256

  function Min(a: int, b: int): int {
    if a <= b then a else b
  }
}
