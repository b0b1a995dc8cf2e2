/** The fan-out step of the incoming-data route: what is sent to one
    destination, and the fail-fast walk over an account's destinations that
    the route performs, as a function of the transport's answers. */
module Relay {
  import opened Http
  import opened Records

  /** The header every forwarded request carries the caller's token in. */
  const TokenHeader: string := "CL-XTOKEN"

  const SentMessage: string := "Data sent to destinations successfully"
  const InvalidMethod: string := "Invalid HTTP method"
  const SendFailed: string := "Failed to send data to destination"

  /** The stored method string of a verb. */
  function VerbName(v: Verb): string
  {
    match v
    case Get => "GET"
    case Post => "POST"
    case Put => "PUT"
  }

  /** The verb a stored method string selects; None for any other string
      (the comparison is exact, so "get" selects nothing). */
  function VerbOf(name: string): (r: Option<Verb>)
    ensures r.Some? ==> VerbName(r.value) == name
    ensures forall v :: name == VerbName(v) ==> r == Some(v)
  {
    if name == "GET" then Some(Get)
    else if name == "POST" then Some(Post)
    else if name == "PUT" then Some(Put)
    else None
  }

  /** A copy of the stored headers with the token header set to the caller's
      token, whether or not the stored headers already had one. */
  function WithToken(headers: map<string, string>, token: string): (h: map<string, string>)
    ensures h.Keys == headers.Keys + {TokenHeader}
    ensures h[TokenHeader] == token
    ensures forall k :: k in headers && k != TokenHeader ==> h[k] == headers[k]
  {
    headers[TokenHeader := token]
  }

  /** The request sent to destination `d` for payload `data` under `token`;
      None when the stored method is none of GET, POST and PUT. */
  function Outgoing(d: Destination, token: string, data: Payload): (r: Option<Request>)
    ensures r.Some? <==> VerbOf(d.httpMethod).Some?
    ensures r.Some? ==> VerbName(r.value.verb) == d.httpMethod && r.value.url == d.url
    ensures r.Some? ==> r.value.headers == WithToken(d.headers, token)
    ensures r.Some? ==> r.value.body.data == data
    ensures r.Some? ==> (r.value.body.Params? <==> r.value.verb == Get)
  {
    match VerbOf(d.httpMethod)
    case None => None
    case Some(verb) =>
      Some(Request(verb, d.url, WithToken(d.headers, token), if verb == Get then Params(data) else Json(data)))
  }

  /** Destination `d` takes the payload: its method is known and the
      transport answers exactly 200. */
  predicate Accepted(d: Destination, token: string, data: Payload, send: Request -> int)
  {
    Outgoing(d, token, data).Some? && send(Outgoing(d, token, data).value) == StatusOk
  }

  /** What a dispatch did: the requests handed to the transport, in order,
      and how the route ended. */
  datatype Delivery = Delivery(sent: seq<Request>, outcome: Response<string>)

  /** Forwards the payload to each destination in turn and stops at the
      first one that has an unknown method (nothing sent to it) or answers
      with a status other than 200 (one request sent to it). */
  function Dispatch(ds: seq<Destination>, token: string, data: Payload, send: Request -> int): (r: Delivery)
    ensures |r.sent| <= |ds|
    ensures r.outcome.Ok? || r.outcome.HttpError?
  {
    if ds == [] then Delivery([], Ok(SentMessage))
    else
      match Outgoing(ds[0], token, data)
      case None => Delivery([], HttpError(400, InvalidMethod))
      case Some(req) =>
        if send(req) != StatusOk then Delivery([req], HttpError(500, SendFailed))
        else
          var rest := Dispatch(ds[1..], token, data, send);
          Delivery([req] + rest.sent, rest.outcome)
  }

  /** A dispatch succeeds exactly when every destination accepts. */
  lemma {:induction false} DispatchSucceedsIff(ds: seq<Destination>, token: string, data: Payload, send: Request -> int)
    ensures Dispatch(ds, token, data, send).outcome.Ok?
        <==> forall i :: 0 <= i < |ds| ==> Accepted(ds[i], token, data, send)
  {
    if ds != [] {
      DispatchSucceedsIff(ds[1..], token, data, send);
      assert forall i :: 1 <= i < |ds| ==> ds[i] == ds[1..][i - 1];
    }
  }

  /** When every destination accepts, each receives exactly one request, in
      order, and the route reports success. With no destinations at all it
      succeeds having sent nothing. */
  lemma {:induction false} DispatchAllAccepted(ds: seq<Destination>, token: string, data: Payload, send: Request -> int)
    requires forall i :: 0 <= i < |ds| ==> Accepted(ds[i], token, data, send)
    ensures Dispatch(ds, token, data, send).outcome == Ok(SentMessage)
    ensures |Dispatch(ds, token, data, send).sent| == |ds|
  {
    if ds != [] {
      assert forall i :: 1 <= i < |ds| ==> ds[1..][i - 1] == ds[i];
      DispatchAllAccepted(ds[1..], token, data, send);
    }
  }

  /** Fail-fast: if destination k is the first that does not accept, every
      earlier destination received exactly one request, destination k
      received one only if its method was known, no later destination
      received anything, and the route fails with 400 for an unknown method
      or 500 for a rejected request. */
  lemma {:induction false} DispatchStopsAtFirstFailure(ds: seq<Destination>, token: string, data: Payload, send: Request -> int, k: nat)
    requires k < |ds|
    requires forall j :: 0 <= j < k ==> Accepted(ds[j], token, data, send)
    requires !Accepted(ds[k], token, data, send)
    ensures var r := Dispatch(ds, token, data, send);
      && |r.sent| == (if Outgoing(ds[k], token, data).Some? then k + 1 else k)
      && r.outcome == (if Outgoing(ds[k], token, data).Some? then HttpError(500, SendFailed) else HttpError(400, InvalidMethod))
  {
    if k > 0 {
      assert forall j :: 1 <= j <= k ==> ds[1..][j - 1] == ds[j];
      DispatchStopsAtFirstFailure(ds[1..], token, data, send, k - 1);
    }
  }

  /** The j-th request handed to the transport is the request for the j-th
      destination: each destination reached is sent to exactly once, in
      table order. */
  lemma {:induction false} DispatchSentInOrder(ds: seq<Destination>, token: string, data: Payload, send: Request -> int)
    ensures var r := Dispatch(ds, token, data, send);
      forall j :: 0 <= j < |r.sent| ==> Outgoing(ds[j], token, data) == Some(r.sent[j])
  {
    if ds != [] && Outgoing(ds[0], token, data).Some? {
      DispatchSentInOrder(ds[1..], token, data, send);
      assert forall j :: 1 <= j < |ds| ==> ds[1..][j - 1] == ds[j];
    }
  }

  /** A delivery preceded by requests already sent. */
  function After(sent: seq<Request>, rest: Delivery): Delivery
  {
    Delivery(sent + rest.sent, rest.outcome)
  }

  /** One step of the walk at destination i, with `sent` already handed to
      the transport: an unknown method ends it with 400, a rejected request
      ends it with 500 after that request, an accepted one moves on. */
  lemma DispatchStep(ds: seq<Destination>, i: nat, sent: seq<Request>, token: string, data: Payload, send: Request -> int)
    requires i < |ds|
    ensures var here := After(sent, Dispatch(ds[i..], token, data, send));
      match Outgoing(ds[i], token, data)
      case None => here == Delivery(sent, HttpError(400, InvalidMethod))
      case Some(req) =>
        if send(req) != StatusOk then here == Delivery(sent + [req], HttpError(500, SendFailed))
        else here == After(sent + [req], Dispatch(ds[i + 1..], token, data, send))
  {
    assert ds[i..][1..] == ds[i + 1..];
    match Outgoing(ds[i], token, data)
    case None =>
      assert sent + [] == sent;
    case Some(req) =>
      var next := Dispatch(ds[i + 1..], token, data, send);
      assert sent + ([req] + next.sent) == (sent + [req]) + next.sent;
  }
}
