/** The optional values and thrown errors of the source (`String?`, `Int?`, `Date?`,
    `Series?`, `throws`). */
module Common {

  datatype Option<T> = None | Some(value: T) {
    /** `self ?? d` */
    function GetOr(d: T): T
    {
      if Some? then value else d
    }
  }

  /** The outcome of a call that may throw; a thrown error carries its
      `localizedDescription`. */
  datatype Result<T> = Ok(value: T) | Err(description: string)

  /** Dates are instants counted in seconds; only their identity and ordering matter here. */
  type Date = int
}
