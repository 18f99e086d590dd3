/** Failure-carrying datatypes used in place of Java's null references and exceptions. */
module Wrappers {

  /** A value that may be absent; stands for a nullable Java reference or an `Optional`. */
  datatype Option<+T> = None | Some(value: T)

  /** Either a value or the error that a Java method would have thrown instead. */
  datatype Result<+R, +E> = Success(value: R) | Failure(error: E)

  /** What a state-changing operation hands back: its result, and the state it leaves behind
      (unchanged when the operation fails before writing). */
  datatype Efeito<+R, +E, +S> = Efeito(saida: Result<R, E>, estado: S)

  /** The outcome of a `void` Java method that may throw: it passes or fails with an error. */
  datatype Outcome<+E> = Pass | Fail(error: E)
}
