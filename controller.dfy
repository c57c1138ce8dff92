/** The ingress endpoint POST /route (RoutingController.java): the dispatcher's result
    becomes an HTTP response, a reply with status 200 and the reply as its body, an error
    with status 503 and a two-field error envelope carrying the error's message. */
module Controller {
  import opened Wrappers
  import opened Json
  import opened JavaInt
  import R = Routing

  const Ok: int := 200
  const ServiceUnavailable: int := 503

  /** A ResponseEntity<JsonNode>: the HTTP status code and the JSON body. */
  datatype Response = Response(status: int, body: Json)

  /** createErrorResponse: a new empty object node given "status": "error" and then
      "message": the message, in that order. */
  function CreateErrorResponse(message: string): (body: Json)
    ensures body == JObject([("status", JString("error")), ("message", JString(message))])
    ensures Get(body.fields, "status") == Some(JString("error"))
    ensures Get(body.fields, "message") == Some(JString(message))
    ensures forall k :: k != "status" && k != "message" ==> Get(body.fields, k).None?
  {
    Put(Put(JObject([]), "status", JString("error")), "message", JString(message))
  }

  /** route's map / onErrorResume over the result of forward. */
  function ToResponse(result: Result<Json, string>): (response: Response)
    ensures response.status == Ok <==> result.Success?
    ensures response.status == ServiceUnavailable <==> result.Failure?
    ensures result.Success? ==> response.body == result.value
    ensures result.Failure? ==> response.body == CreateErrorResponse(result.error)
  {
    match result
    case Success(reply) => Response(Ok, reply)
    case Failure(message) => Response(ServiceUnavailable, CreateErrorResponse(message))
  }

  /** What a client of /route reads back from a response of this endpoint: the reply of a
      200, the message of a 503 carrying an error envelope, nothing for anything else. */
  function FromResponse(response: Response): (result: Option<Result<Json, string>>)
    ensures result.Some? && result.value.Success? ==> response.status == Ok
    ensures result.Some? && result.value.Failure? ==> response.status == ServiceUnavailable
  {
    if response.status == Ok then Some(Success(response.body))
    else if response.status == ServiceUnavailable && response.body.JObject?
         && Get(response.body.fields, "status") == Some(JString("error"))
         && Get(response.body.fields, "message").Some?
         && Get(response.body.fields, "message").value.JString?
    then Some(Failure(Get(response.body.fields, "message").value.s))
    else None
  }

  /** Nothing is lost between the dispatcher and the client: the reply comes back
      unchanged and the error's message comes back from the envelope. */
  lemma ResponseRoundTrip(result: Result<Json, string>)
    ensures FromResponse(ToResponse(result)) == Some(result)
  {
    if result.Failure? {
      var body := CreateErrorResponse(result.error);
      assert Get(body.fields, "message") == Some(JString(result.error));
    }
  }

  /** Different results give different responses; in particular the two dispatcher
      errors stay apart in the body. */
  lemma ToResponseInjective(x: Result<Json, string>, y: Result<Json, string>)
    requires ToResponse(x) == ToResponse(y)
    ensures x == y
  {
    ResponseRoundTrip(x);
    ResponseRoundTrip(y);
  }

  /** With no healthy upstream the endpoint answers 503 with the no-healthy-instances
      message, whatever the payload. */
  lemma NoHealthyIs503(payload: Json, upstream: R.Upstream, now: int,
                       counter: Int32, breakers: map<R.HC.Url, R.CB.Breaker>)
    ensures ToResponse(R.ForwardOutcome([], payload, upstream, now, counter, breakers).result)
         == Response(ServiceUnavailable, JObject([("status", JString("error")),
                                                  ("message", JString(R.NoHealthyInstances))]))
  {
  }

  /** The REST controller in front of the dispatcher. */
  class RoutingController {
    const routingService: R.RoutingService

    constructor (routingService: R.RoutingService)
      ensures this.routingService == routingService
    {
      this.routingService := routingService;
    }

    /** route: the payload goes to forward unchanged and forward's result becomes the
        response; the dispatcher's counter and breakers move as that forward prescribes. */
    method Route(payload: Json, upstream: R.Upstream, now: int) returns (response: Response)
      requires routingService.Valid()
      modifies routingService
      ensures routingService.Valid()
      ensures var d := R.ForwardOutcome(old(routingService.healthCheckService.GetHealthyInstances()), payload,
                                        upstream, now, old(routingService.counter),
                                        old(routingService.circuitBreakers));
              && response == ToResponse(d.result)
              && routingService.counter == d.counter
              && routingService.circuitBreakers == d.breakers
    {
      var result := routingService.Forward(payload, upstream, now);
      response := ToResponse(result);
    }
  }
}
