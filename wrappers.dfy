/** Option values (a Python `None` or a present value) and results of a
    step that can be refused with a message. */
module Wrappers {

  datatype Option<+T> = None | Some(value: T)

  /** A value, or the message of an error that ends the run. */
  datatype Result<+T> = Ok(value: T) | Err(message: string)

  /** The lines a tool has printed so far, and whether an uncaught
      exception has ended the run. */
  datatype Report = Report(out: seq<string>, crashed: bool)
}
