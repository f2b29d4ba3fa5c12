/** Exceptions and the outcome of awaiting a user function. */
module Exceptions {

  /** An exception class: its name and the names of all the classes it is a subclass of, itself included. */
  datatype Class = Class(name: string, ancestors: set<string>)

  /** A raised exception. `tag` tells apart two exceptions of one class. */
  datatype Exc = Exc(class_: Class, tag: int)

  const SERVICE_UNAVAILABLE := "ServiceUnavailableError"
  const CANCELLED := "CancelledError"

  predicate IsInstance(e: Exc, name: string) {
    name in e.class_.ancestors
  }

  /** `except (A, B, ...)`: the handler is entered when the exception is an instance of a listed class. */
  predicate Caught(e: Exc, classes: seq<Class>) {
    exists i | 0 <= i < |classes| :: IsInstance(e, classes[i].name)
  }

  /** A result handed back to a caller: `None`, or some object known by its identity. */
  datatype Value = PyNone | Token(id: int)

  datatype Outcome = Returned(value: Value) | Raised(exc: Exc)
}
