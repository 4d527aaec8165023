/** Option and Result datatypes, and the error kinds the library raises.

    Every Java exception that escapes one of the modelled operations becomes an
    `Err` carrying one of the `Error` variants below; an operation that the
    source lets fail therefore returns a `Result` instead of requiring that the
    failure cannot happen.
 */
module Wrappers {

  datatype Option<+T> = None | Some(value: T) {
    function GetOr(default: T): T {
      match this
      case Some(v) => v
      case None => default
    }
  }

  /** The exception kinds of the core, named after the Java types that carry them. */
  datatype Error =
    | KeyNotFound                          // CRUDZillaKeyNotFound
    | FormNotFound                         // CRUDZillaFormNotFound
    | FilterNotFound                       // CRUDZillaFilterNotFound
    | ProjectionNotFound                   // CRUDZillaProjectionNotFound
    | InvalidOperation                     // CRUDZillaInvalidOperation (unparsable SpEL rule)
    | NotImplemented                       // commons-lang NotImplementedException
    | EntityNotFound                       // EntityNotFoundException
    | EntityNotMapped                      // EntityNotMappedException (no QueryDSL Q-class)
    | InvalidEntity(messages: seq<string>) // InvalidEntityException
    | NumberFormat                         // NumberFormatException from Integer.parseInt
    | DecodeFailed                         // Jackson JsonProcessingException
    | NoSuchBean                           // Spring NoSuchBeanDefinitionException
    | NullPointer                          // NullPointerException
    | IndexOutOfBounds                     // IndexOutOfBoundsException
    | IllegalArgument                      // IllegalArgumentException
    | ClassCast                            // ClassCastException
    | Runtime                              // RuntimeException wrapping a reflective failure

  datatype Result<+T> = Ok(value: T) | Err(error: Error) {
    predicate IsFailure() {
      Err?
    }

    function PropagateFailure<U>(): Result<U>
      requires Err?
    {
      Err(error)
    }

    function Extract(): T
      requires Ok?
    {
      value
    }
  }
}
