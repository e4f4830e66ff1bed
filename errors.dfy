/** The exceptions the engine raises: one constructor per raise site, each
    mapped to the Python exception class it raises. */
module Errors {

  datatype ErrorKind = AttributeError | TypeError | ValueError

  datatype Error =
    // building a TypeDef
    | InvalidTypeof
    | InvalidRequired
    | InvalidImmutable
    | InvalidChoicesList
    | InvalidChoiceType
    | InvalidValidateFn
    | TooManyParameters(count: nat)
    | InvalidConvert
    // `isinstance` itself raising, for a type target that is not a type
    | IsinstanceRaised
    // assigning a field
    | UnknownAttribute(key: string)
    | NotCallable(key: string)
    | WrongType(key: string)
    | ImmutableAttribute(key: string)
    | ImmutableDefault(key: string)
    | InvalidChoice(key: string)
    | ValidateFnNotBool(key: string)
    | ValidateFnFailed(key: string)
    // constructing an instance, deleting a field
    | MissingRequired(keys: seq<string>)
    | ImmutableDelete(key: string)
    | NoSuchAttribute(key: string)
  {
    /** The exception class raised. */
    function Kind(): ErrorKind {
      match this
      case TooManyParameters(_) => ValueError
      case UnknownAttribute(_) => AttributeError
      case ImmutableAttribute(_) => AttributeError
      case ImmutableDefault(_) => AttributeError
      case MissingRequired(_) => AttributeError
      case ImmutableDelete(_) => AttributeError
      case NoSuchAttribute(_) => AttributeError
      case _ => TypeError
    }

    /** The error is one that a field assignment raises. */
    predicate RaisedByAssignment() {
      || UnknownAttribute? || NotCallable? || IsinstanceRaised? || WrongType?
      || ImmutableAttribute? || ImmutableDefault? || InvalidChoice?
      || ValidateFnNotBool? || ValidateFnFailed?
    }
  }

  datatype Result<T> = Ok(value: T) | Err(error: Error)

  /** The end of an operation that returns nothing: it completed, or it raised. */
  datatype Outcome = Pass | Fail(error: Error)
}
