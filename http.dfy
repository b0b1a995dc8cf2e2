/** Values exchanged at the HTTP boundary of the relay: handler outcomes and
    the outbound requests the relay hands to its transport. */
module Http {

  datatype Option<T> = None | Some(value: T)

  /** A JSON object as the handlers see it: field name to value. */
  type Payload = map<string, string>

  /** What a route handler ends with: the value it returns, an HTTPException
      it raises (status code and detail), or the exception that escapes when
      a token cannot be decoded (the handlers do not catch it). */
  datatype Response<T> = Ok(value: T) | HttpError(status: int, detail: string) | DecodeError
  {
    /** The same failure, re-typed for a caller that returns another value type. */
    function Forward<U>(): (r: Response<U>)
      requires !Ok?
      ensures !r.Ok?
      ensures r.HttpError? <==> HttpError?
      ensures HttpError? ==> r.status == status && r.detail == detail
    {
      if HttpError? then HttpError(status, detail) else DecodeError
    }
  }

  /** The three methods the relay knows how to send with. */
  datatype Verb = Get | Post | Put

  /** How the payload travels: as query parameters or as a JSON body. */
  datatype Body = Params(data: Payload) | Json(data: Payload)

  /** One call handed to the transport. */
  datatype Request = Request(verb: Verb, url: string, headers: map<string, string>, body: Body)

  /** The only status the relay accepts as a successful delivery. */
  const StatusOk: int := 200
}
