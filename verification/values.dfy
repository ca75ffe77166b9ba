/** Ruby values as far as the dispatcher observes them: the block's return
    value, a driver's substitute return value, and the errors that may be
    raised through an instrumented call. */
module Values {

  /** A metric path or span name, e.g. "something_amazing.foo". */
  type Name = string

  /** A raised Ruby exception, identified by its message. */
  type Error = string

  /** The Ruby objects a block or a driver may return. */
  datatype Value = Nil | Sym(symbol: string) | Int(n: int)

  /** How a Ruby call completes: it returns a value or raises. */
  datatype Outcome = Returned(value: Value) | Raised(error: Error)
}
