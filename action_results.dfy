/**
 * What a controller action answers, in place of the HTTP result objects:
 * `Ok` carries the response body, the other cases are the error responses.
 */
module ActionResults {
  import opened DataAnnotations
  import opened Auth

  datatype Outcome<T> =
    | Ok(value: T)
    | NotFound                            // 404 with a message
    | ValidationFailed(fields: set<Field>) // 400 with the model state
    | InvalidReference                    // 400: the product's category does not exist
    | ConcurrencyConflict                 // 400: the record to update is no longer in the store
    | PersistenceFailed                   // 400: the save failed for another reason
    | Unauthenticated                     // 401 from the authorization gate
    | Forbidden                           // 403 from the authorization gate

  /** The answer of the gate when it does not let the call through. */
  function Denied<T>(d: Decision): (r: Outcome<T>)
    requires d != Allow
    ensures r.Unauthenticated? <==> d == Challenge
    ensures r.Forbidden? <==> d == Forbid
  {
    match d
    case Challenge => Unauthenticated
    case Forbid => Forbidden
  }
}
