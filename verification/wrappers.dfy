/** Option and Result types, and the Python exceptions the plugin's code can
    raise, modelled as values so that every operation is total. */
module Wrappers {

  datatype Option<+T> = None | Some(value: T)

  /** The exceptions raised by the modelled Python code. Each carries what the
      Python message would name (the missing key, the missing attribute). */
  datatype Fault =
    | KeyError(key: string)            // dict lookup or dict.pop of an absent key
    | KeyErrorNotText                  // dict lookup of an absent key that is not a string
    | AttributeError(attr: string)     // a method or attribute the class does not define
    | IndexError                       // list or string index out of range
    | ValueError                       // bad unpacking, float() of a non-number, min() of []
    | TypeError                        // an operation applied to a value of the wrong type
    | ZeroDivisionError                // Python float division by zero
    | NotANumber                       // numpy would print nan/inf (division of 0 by 0)
    | QtObjectDeleted                  // "wrapped C/C++ object ... has been deleted"

  /** The result of a Python call: a value, or the exception it raised. */
  datatype Result<+T> = Ok(value: T) | Fail(fault: Fault) {
    predicate IsFailure() { Fail? }

    function PropagateFailure<U>(): Result<U>
      requires Fail?
    {
      Fail(fault)
    }

    function Extract(): T
      requires Ok?
    {
      value
    }
  }
}
