/** The action results the controllers return, each standing for its HTTP status. */
module Http {

  /** `Ok(x)` (200), `CreatedAtAction(…, x)` (201), `BadRequest()` (400),
      `Unauthorized()` (401), `Forbid()` (403) and `NotFound()` (404); a
      body-less `Ok()` is `Ok(())`. */
  datatype ActionResult<T> =
    | Ok(value: T)
    | Created(value: T)
    | BadRequest
    | Unauthorized
    | Forbid
    | NotFound
}
