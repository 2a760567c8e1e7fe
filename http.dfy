/**
 * What the routers raise when a request fails: FastAPI's
 * `HTTPException(status_code=..., detail=...)`.
 */
module Http {
  datatype HttpError = HttpError(statusCode: int, detail: string)
}
