/** Small shared vocabulary: optional values, results, and the Python
    exceptions that abort a synchronisation run. */
module Base {

  datatype Option<+T> = None | Some(value: T) {
    function GetOr(default: T): T {
      match this
      case Some(v) => v
      case None => default
    }
  }

  /** The key that a failed dictionary lookup (`KeyError`) was raised for:
      a JSON field name, or a Space issue number looked up in the
      translation map. */
  datatype Key = Field(name: string) | Number(n: int)

  /** The exceptions the synchronisation code can raise. */
  datatype Error =
    | HttpError(status: int)     // `raise_for_status` on a 4xx/5xx answer
    | KeyError(key: Key)         // a missing dictionary key
    | ValueError                 // `strptime` rejected a date token
    | OverflowError              // `date + timedelta` left the supported range
    | StopIteration              // `next` on a request that yielded nothing

  datatype Result<+T> = Ok(value: T) | Err(error: Error)

  /** HTTP statuses for which `requests`' `raise_for_status` raises. */
  predicate IsErrorStatus(status: int) {
    400 <= status < 600
  }
}
