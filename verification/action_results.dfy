/** What a controller action answers: an HTTP result, or an exception that escapes the action. */
module ActionResults {
  import opened Wrappers
  import Store
  import Hypermedia

  datatype ActionResult<+T> =
    | Ok(value: T)                                                              // 200
    | CreatedAt(action: string, routeValues: Hypermedia.RouteValues, value: T)  // 201 with the URL of action
    | NoContent                                                                 // 204
    | BadRequest(reason: Option<string>)                                        // 400
    | Unauthorized(message: string)                                             // 401
    | NotFound                                                                  // 404
    | Conflict(message: string)                                                 // 409
    | Thrown(error: Store.Error)                                                // the exception propagates

  /** The answer of an action together with the tables it leaves behind. */
  datatype Outcome<+T> = Outcome(result: ActionResult<T>, after: Store.Tables)

  /** The BadRequest message for a page number or page size that is not positive. */
  const PagingMessage: string := "Os parâmetros de paginação devem ser maiores que zero."

  /** The BadRequest message for a maintenance record naming an unknown motorcycle. */
  const UnknownMotoMessage: string := "A moto informada não existe."
}
