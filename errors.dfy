/** The Python exceptions that cross the modelled code, by the class the code tests for. */
module Errors {

  datatype ErrorKind =
    | DriverError     // pyodbc.Error and its subclasses
    | AttributeError
    | TypeError
    | PlainException  // an instance of the base class Exception
    | OtherError      // any other exception class

  datatype Exception = Exception(kind: ErrorKind, message: string)
}
