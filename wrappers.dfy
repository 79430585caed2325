/** Option and Result, used for JavaScript's `null`/`undefined` and for rejected promises. */
module Wrappers {

  datatype Option<+T> = None | Some(value: T) {
    /** The value, or `default` when there is none (JavaScript's `x || default` on a possibly missing value). */
    function GetOr(default: T): T {
      match this
      case Some(v) => v
      case None => default
    }
  }

  datatype Result<+R, +E> = Success(value: R) | Failure(error: E)
}

/** The two kinds of message the sender can write: plain text or rich BlockNote content as JSON. */
module MessageKind {
  datatype Kind = Simple | Compound
}

/** The options object the sender's form hands to `createMessage`. */
module MessageOptions {
  import opened MessageKind

  datatype CreateRequest = CreateRequest(content: string, expireAt: real, viewLimit: real, kind: Kind)
}
