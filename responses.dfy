/** The replies the routes return: a status code with a body, or a status
    code with an error.  Error texts are represented by their kind. */
module Responses {
  datatype Error =
    | MeetingNotFound(id: int)
    | AnalysisNotAvailable(id: int)
    | NoTranscript
    | CreateFailed
    | InternalError
    | SuggestionFailed

  datatype Response<T> =
    | Ok(status: int, body: T)
    | Err(status: int, error: Error)

  const Created := 201
  const Success := 200
  const Accepted := 202
  const BadRequest := 400
  const NotFound := 404
  const ServerError := 500
}
