/** Values that may be missing. */
module Options {
  datatype Option<+T> = None | Some(value: T) {
    predicate IsFailure() { None? }
    function PropagateFailure<U>(): Option<U>
      requires None?
    {
      None
    }
    function GetOr(default: T): T { if Some? then value else default }
    function Extract(): T
      requires Some?
    {
      value
    }
  }
}
