/**
 * Version negotiation as each side decides it: the client library checking
 * the broker's answer (client/src/negotiation.rs), the broker answering a
 * client's hello (broker/src/client/negotiation.rs and its older copy
 * src/broker/client/negotiation.rs), and a service routing and answering a
 * broker's hello (src/service/serve.rs).
 */
module Negotiation {
  import opened Wrappers
  import opened Messages
  import opened ProtocolMessages

  // ---------------------------------------------------------------------
  // Client side
  // ---------------------------------------------------------------------

  /** The services map the client keeps: each service id with the products
   *  its service advertises. */
  type ServicesMap = map<Identifier, set<ProductDescriptor>>

  /** A negotiated client. `http` stands for the HTTP client handle. */
  datatype Client = Client(baseUrl: string, http: nat, services: ServicesMap)

  datatype NegotiationErrorKind =
    | NegotiationHyper
    | NegotiationSerde
    | NegotiationBadStatus(code: nat)
    | BadConfigUrl
    | ClientNotCompatible(client: ProtocolVersion, broker: ProtocolVersion)

  /** The `collect` of `(id, products)` pairs into a map. Later pairs
   *  overwrite earlier ones; which of two services with the same id comes
   *  later is the set's iteration order, left open here. */
  ghost function CollectServices(s: set<ServiceNegotiation>): (m: ServicesMap)
    ensures m.Keys == set sn | sn in s :: sn.service.id
    ensures forall id | id in m :: exists sn | sn in s :: sn.service.id == id && m[id] == sn.products
    decreases s
  {
    if s == {} then map[]
    else
      var sn :| sn in s;
      var rest := CollectServices(s - {sn});
      assert forall x | x in s :: x == sn || x in s - {sn};
      rest[sn.service.id := sn.products]
  }

  /** When no two services share an id, each id maps to its own service's products. */
  lemma CollectServicesUnique(s: set<ServiceNegotiation>, sn: ServiceNegotiation)
    requires forall a, b | a in s && b in s && a.service.id == b.service.id :: a == b
    requires sn in s
    ensures CollectServices(s)[sn.service.id] == sn.products
  {
  }

  /** `Negotiation::negotiate`: compatible versions give a client holding the
   *  base URL, the HTTP handle and the services map; otherwise the error
   *  names the client's and the broker's versions. */
  ghost function Negotiate(baseUrl: string, http: nat, cn: ClientNegotiation, cbn: ClientBrokerNegotiation)
    : (r: Result<Client, NegotiationErrorKind>)
    ensures r.Ok? <==> cn.monto.major == cbn.monto.major
    ensures r.Ok? ==> r.value.baseUrl == baseUrl && r.value.http == http &&
                      r.value.services.Keys == set sn | sn in cbn.services :: sn.service.id
    ensures r.Ok? ==> r.value.services == CollectServices(cbn.services)
    ensures r.Ok? ==> forall id | id in r.value.services ::
                        exists sn | sn in cbn.services :: sn.service.id == id && r.value.services[id] == sn.products
    ensures r.Err? ==> r.error == ClientNotCompatible(cn.monto, cbn.monto)
  {
    if Compatible(cn.monto, cbn.monto) then
      Ok(Client(baseUrl, http, CollectServices(cbn.services)))
    else
      Err(ClientNotCompatible(cn.monto, cbn.monto))
  }

  /** With compatible versions and no two services sharing an id, the
   *  client knows every advertised service with exactly its products. */
  lemma NegotiateKeepsServices(baseUrl: string, http: nat, cn: ClientNegotiation,
                               cbn: ClientBrokerNegotiation, sn: ServiceNegotiation)
    requires cn.monto.major == cbn.monto.major
    requires forall a, b | a in cbn.services && b in cbn.services && a.service.id == b.service.id :: a == b
    requires sn in cbn.services
    ensures Negotiate(baseUrl, http, cn, cbn).Ok?
    ensures Negotiate(baseUrl, http, cn, cbn).value.services[sn.service.id] == sn.products
  {
    CollectServicesUnique(cbn.services, sn);
  }

  /** What the HTTP exchange of the hello produced: a transport failure, or
   *  a status with a body that may or may not decode. */
  datatype HelloResponse =
    | HelloTransportFailure
    | HelloResponse(status: nat, body: Option<ClientBrokerNegotiation>)

  /** `Negotiation::new`: read the body, decode it and negotiate. The status
   *  is never looked at. */
  ghost function NegotiationNew(baseUrl: string, http: nat, cn: ClientNegotiation, response: HelloResponse)
    : (r: Result<Client, NegotiationErrorKind>)
    ensures r.Err? ==> !r.error.NegotiationBadStatus?
    ensures response.HelloTransportFailure? ==> r == Err(NegotiationHyper)
    ensures response.HelloResponse? && response.body.None? ==> r == Err(NegotiationSerde)
    ensures response.HelloResponse? && response.body.Some? ==>
              r == Negotiate(baseUrl, http, cn, response.body.value)
  {
    match response
    case HelloTransportFailure => Err(NegotiationHyper)
    case HelloResponse(_, body) =>
      match body
      case None => Err(NegotiationSerde)
      case Some(cbn) => Negotiate(baseUrl, http, cn, cbn)
  }

  /** A 400 reply with a compatible body still negotiates successfully. */
  lemma NegotiationIgnoresStatus(baseUrl: string, http: nat, cn: ClientNegotiation,
                                 cbn: ClientBrokerNegotiation, s1: nat, s2: nat)
    ensures NegotiationNew(baseUrl, http, cn, HelloResponse(s1, Some(cbn))) ==
            NegotiationNew(baseUrl, http, cn, HelloResponse(s2, Some(cbn)))
    ensures cn.monto.major == cbn.monto.major ==>
            NegotiationNew(baseUrl, http, cn, HelloResponse(BAD_REQUEST, Some(cbn))).Ok?
  {
  }

  // ---------------------------------------------------------------------
  // Broker answering a client
  // ---------------------------------------------------------------------

  /** A JSON response: a status and the value serialised as its body. */
  datatype JsonResponse<T> = JsonResponse(status: nat, body: T)

  /** `Client::negotiation` on the broker: always the broker's own
   *  negotiation as body; 200 when the majors agree, 400 otherwise. */
  function ClientHelloAnswer(cbn: ClientBrokerNegotiation, cn: ClientNegotiation)
    : (r: JsonResponse<ClientBrokerNegotiation>)
    ensures r.status == OK <==> cbn.monto.major == cn.monto.major
    ensures r.status == OK || r.status == BAD_REQUEST
    ensures r.body == cbn
  {
    JsonResponse(if Compatible(cbn.monto, cn.monto) then OK else BAD_REQUEST, cbn)
  }

  /** The answer does not depend on the minor or patch versions. */
  lemma ClientHelloAnswerIgnoresMinor(cbn: ClientBrokerNegotiation, cn: ClientNegotiation, minor: nat, patch: nat)
    ensures ClientHelloAnswer(cbn, cn) ==
            ClientHelloAnswer(cbn, cn.(monto := ProtocolVersion(cn.monto.major, minor, patch)))
  {
  }

  // ---------------------------------------------------------------------
  // Service routing a broker's request
  // ---------------------------------------------------------------------

  datatype Method = Get | Post | Put | Delete | OtherMethod(name: string)

  /** The outcome of `json_request`: the decoded value, a transport error
   *  (carried along) or a body that does not decode. */
  datatype BodyDecode<T> = Decoded(value: T) | TransportFailed(error: nat) | Malformed

  datatype LogLevel = LogError | LogWarn | LogInfo

  /** hyper's status classes: 1xx to 5xx; anything else is "strange". */
  predicate IsServerError(status: nat) { 500 <= status < 600 }
  predicate IsClientError(status: nat) { 400 <= status < 500 }
  predicate IsStrangeStatus(status: nat) { status < 100 || status >= 600 }

  /** The log level of a response: Error for 5xx and strange statuses,
   *  Warn for 4xx, Info otherwise. */
  function LevelFor(status: nat): (r: LogLevel)
    ensures r == LogError <==> status < 100 || status >= 500
    ensures r == LogWarn <==> 400 <= status < 500
    ensures r == LogInfo <==> 100 <= status < 400
  {
    if IsServerError(status) || IsStrangeStatus(status) then LogError
    else if IsClientError(status) then LogWarn
    else LogInfo
  }

  /** A response body: the service's negotiation, or `error_response`'s
   *  plain-text rendering of the status. */
  datatype ResponseBody = NegotiationBody(sn: ServiceNegotiation) | StatusText(status: nat)

  /** What `Broker::call` produces: a response (logged at a level), or a
   *  transport error handed on unchanged and not logged. */
  datatype CallOutcome =
    | Responded(status: nat, body: ResponseBody, level: LogLevel)
    | PassedOn(error: nat)

  /** The response before logging. */
  datatype Routed = Routed(status: nat, body: ResponseBody) | RouteFailed(error: nat)

  /** The route match of `Broker::call`: POST /monto/version answers the
   *  hello with the service's negotiation; anything else is 404. */
  function Route(verb: Method, path: string, body: BodyDecode<ServiceBrokerNegotiation>, sn: ServiceNegotiation)
    : (r: Routed)
    ensures (verb != Post || path != "/monto/version") ==> r == Routed(NOT_FOUND, StatusText(NOT_FOUND))
    ensures verb == Post && path == "/monto/version" ==>
      match body
      case Decoded(sbn) =>
        r.Routed? && r.body == NegotiationBody(sn) &&
        (r.status == OK <==> sbn.monto.major == sn.monto.major) &&
        (r.status == OK || r.status == BAD_REQUEST)
      case TransportFailed(e) => r == RouteFailed(e)
      case Malformed => r == Routed(INTERNAL_SERVER_ERROR, StatusText(INTERNAL_SERVER_ERROR))
  {
    if verb == Post && path == "/monto/version" then
      match body
      case Decoded(sbn) => Routed(if Compatible(sbn.monto, sn.monto) then OK else BAD_REQUEST, NegotiationBody(sn))
      case TransportFailed(e) => RouteFailed(e)
      case Malformed => Routed(INTERNAL_SERVER_ERROR, StatusText(INTERNAL_SERVER_ERROR))
    else
      Routed(NOT_FOUND, StatusText(NOT_FOUND))
  }

  /** `Broker::call`: the routed response, logged at the level of its status
   *  and otherwise returned unchanged. */
  function Call(verb: Method, path: string, body: BodyDecode<ServiceBrokerNegotiation>, sn: ServiceNegotiation)
    : (r: CallOutcome)
    ensures var routed := Route(verb, path, body, sn);
      match routed
      case Routed(status, b) => r == Responded(status, b, LevelFor(status))
      case RouteFailed(e) => r == PassedOn(e)
  {
    match Route(verb, path, body, sn)
    case Routed(status, b) => Responded(status, b, LevelFor(status))
    case RouteFailed(e) => PassedOn(e)
  }

  /** The levels the service's own answers are logged at: 200 Info,
   *  400 and 404 Warn, 500 Error. */
  lemma CallLevels(verb: Method, path: string, body: BodyDecode<ServiceBrokerNegotiation>, sn: ServiceNegotiation)
    ensures Call(verb, path, body, sn).Responded? ==>
      var r := Call(verb, path, body, sn);
      (r.status == OK && r.level == LogInfo) ||
      (r.status in {BAD_REQUEST, NOT_FOUND} && r.level == LogWarn) ||
      (r.status == INTERNAL_SERVER_ERROR && r.level == LogError)
  {
  }
}
