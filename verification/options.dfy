/** The optional value used throughout the model: a JavaScript `null` or
    `undefined` result on one side, a present value on the other. */
module Options {

  datatype Option<+T> = None | Some(value: T) {

    /** The value when present, otherwise the given default (JavaScript `??`). */
    function GetOr(default: T): T {
      match this
      case Some(v) => v
      case None => default
    }
  }
}
