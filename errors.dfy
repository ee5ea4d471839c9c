/** The exceptions the modelled Python code can raise, and a result type that
    carries either a value or the exception that stopped the computation. */
module Errors {

  /** The Python exception classes that the core can raise. */
  datatype Error =
    | IndexError         // a list or tuple indexed past its end
    | KeyError           // a dictionary lookup of an absent key
    | TypeError          // arithmetic on a timestamp that is still None
    | ZeroDivisionError  // a division by a zero-width zone band

  datatype Result<T> = Ok(value: T) | Err(error: Error)

  datatype Option<T> = None | Some(value: T)
}
