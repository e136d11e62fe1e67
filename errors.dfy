/**
 * Failure values shared by the whole client model.
 *
 * The Java client reports failures by throwing; here every operation that
 * can throw returns a `Result`, and `Error` names the exception (and, for the
 * wrapping exceptions, the cause it carries).
 */
module Errors {

  datatype Option<+T> = None | Some(value: T)

  datatype Error =
    | NoFactories                     // "No connection factories defined"
    | TimedOut                        // "Timed out waiting for connection"
    | OpenFailed                      // "unable to open connetion" (transport refused to open)
    | CloseFailed                     // "Unable to close connection" (flush or close of the transport failed)
    | NullReference                   // a NullPointerException
    | ClassCast                       // a ClassCastException
    | IllegalArgument                 // "Value must be a String or a Number, was ..."
    | NumberFormat(text: string)      // a NumberFormatException from Integer/Long parsing
    | ConstructorFailed(cause: Error)  // InvocationTargetException around what a reflective constructor threw
    | ReflectionFailed                // a reflective constructor call the model does not cover
    | NoSuchField(field: string)      // NoSuchFieldException from getDeclaredField
    | NotColumnFamily(className: string)  // "Class <name> is not a ColumnFamily"
    | NoQueryArguments                // "You must provide at least one query argument triplet"
    | Remote(reason: string)          // a failure reported by the store's RPC client or by the mapper
    | OperationFailed(cause: Error)   // "Unable to perform operation"
    | QueryFailed(cause: Error)       // "Query operation failed"
    | SortFailed(ascending: bool, cause: Error)  // "Unable to sort result set ascending/descending"

  datatype Result<+T> = Ok(value: T) | Fail(error: Error)
}
