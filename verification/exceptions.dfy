/**
 * Exceptions as values. The library throws and catches a handful of
 * exception classes; a catch clause is modelled as matching its named class.
 */
module Exceptions {
  import opened Wrappers

  datatype ExceptionClass =
    | LibraryException        // phpcouch\Exception, the namespaced library's exception
    | PhpcouchException       // the older library's base exception
    | PhpcouchErrorException  // the older library's transport/server error
    | PhpcouchSaveException   // the older library's failed-save exception
    | ForeignException        // anything thrown from outside the library

  /** A thrown exception: its class, message, code and the exception it wraps, if any. */
  datatype Exc = Exc(cls: ExceptionClass, message: string, code: int, previous: Option<Exc>)
}
