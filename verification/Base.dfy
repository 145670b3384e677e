/** Types shared by every module of the daemon model. */
module Base {

  /** One octet of the PCM stream or of an HTTP body. */
  newtype byte = x: int | 0 <= x < 256

  /** assistantd_status_t */
  datatype Status = Ok | InvalidArgument | ConfigError | IoError | ChildProcess | Unimplemented

  datatype Option<+T> = None | Some(value: T) {
    function GetOr(default: T): T {
      match this
      case None => default
      case Some(v) => v
    }
  }

  /** Largest value of a 64-bit size_t. */
  const SIZE_MAX: nat := 0xFFFF_FFFF_FFFF_FFFF

  function Min(a: nat, b: nat): nat {
    if a < b then a else b
  }

  function Max(a: nat, b: nat): nat {
    if a < b then b else a
  }

  /** Subtraction that stops at 0. */
  function Less(a: nat, b: nat): nat {
    if a < b then 0 else a - b
  }

  function Repeat<T>(value: T, count: nat): (s: seq<T>)
    ensures |s| == count && forall i :: 0 <= i < count ==> s[i] == value
  {
    seq(count, i => value)
  }
}
