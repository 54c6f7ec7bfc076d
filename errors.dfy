/** The exceptions the modelled code raises or lets through, by their Python class. */
module Errors {

  datatype Exc =
    /** fastapi.HTTPException: status code, detail text and extra response headers. */
    | HttpException(status: int, detail: string, headers: seq<(string, string)>)
    | ValueError(msg: string)
    | KeyError(key: string)
    /** Reading or deleting an attribute that the object no longer has. */
    | AttributeError(attr: string)
    | FileNotFoundError(msg: string)
    /** `int()` of a value that is neither a number nor a string (None, a list, a dict). */
    | TypeError(msg: string)
    /** `int()` of an infinite float. */
    | OverflowError(msg: string)
    | RuntimeError(msg: string)
    /** An exception raised inside a library call that the model treats as opaque
        (model loading, diffusion pipeline, Cloudinary SDK); `what` names the call. */
    | LibraryError(what: string)

  const Unauthorized := 401
  const InternalServerError := 500

  /** An HTTPException without extra headers. */
  function Http(status: int, detail: string): Exc {
    HttpException(status, detail, [])
  }
}
