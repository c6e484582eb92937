/** Option and Result, plus the Java exceptions that the Weka runner lets escape. */
module Wrappers {

  datatype Option<+T> = None | Some(value: T)

  /** The exception a step throws. Only the kind and the offending value are kept;
      message texts and stack traces are not modelled. */
  datatype Exception =
    | MissingFile(name: string)            // IllegalStateException "<name> not found in ..."
    | MissingParam(key: string)            // NullPointerException from params.get(key).asText()
    | NumberFormat(input: string)          // NumberFormatException from parseInt / parseDouble
    | UnknownAlgorithmType(value: string)  // IllegalArgumentException "Unknown algorithm type"
    | UndefinedNominalValue(value: string) // IllegalArgumentException from Instance.setValue
    | IndexOutOfBounds(index: int)         // ArrayIndexOutOfBoundsException / IndexOutOfBoundsException
    | NegativeArraySize(size: int)         // NegativeArraySizeException from new int[n]
    | UnassignedClass                      // UnassignedClassException from classAttribute()
    | ClassCast                            // the loaded model is not of the kind the type asks for
    | NonUniqueAttributeNames              // IllegalArgumentException from Instances: a column kept twice
    | WekaFailure                          // any exception raised inside Weka itself

  datatype Result<+T> = Ok(value: T) | Err(error: Exception) {
    predicate IsFailure() { Err? }
    function PropagateFailure<U>(): Result<U>
      requires Err?
    {
      Err(error)
    }
    function Extract(): T
      requires Ok?
    {
      value
    }
  }
}
