/**
 * The broker's own state and answers (src/broker/mod.rs): looking up a
 * connected service, the negotiations it presents to clients and services,
 * and the status of its answer to a product request
 * (broker/src/client/req_products.rs and src/broker/client/req_products.rs).
 */
module Broker {
  import opened Wrappers
  import opened Messages
  import opened ProtocolMessages
  import opened Negotiation
  import opened BrokerService

  /** The broker: its configuration and the services it connected to, in
   *  configuration order. */
  datatype BrokerState = BrokerState(config: BrokerConfig, services: seq<ServiceConnection>)

  /** The id a connected service negotiated. */
  function ServiceId(s: ServiceConnection): Identifier {
    s.negotiation.service.id
  }

  /** The first service in the list whose negotiated id is `id`. */
  function FirstWithId(services: seq<ServiceConnection>, id: Identifier): (r: Option<ServiceConnection>)
    ensures r.None? <==> forall k :: 0 <= k < |services| ==> ServiceId(services[k]) != id
    ensures r.Some? ==>
      exists k :: 0 <= k < |services| && services[k] == r.value && ServiceId(r.value) == id &&
                  forall j :: 0 <= j < k ==> ServiceId(services[j]) != id
  {
    if |services| == 0 then None
    else if ServiceId(services[0]) == id then Some(services[0])
    else
      var r := FirstWithId(services[1..], id);
      assert r.Some? ==> exists k :: 0 <= k < |services| && services[k] == r.value && k > 0 &&
                                     forall j :: 0 <= j < k ==> ServiceId(services[j]) != id by {
        if r.Some? {
          var k :| 0 <= k < |services[1..]| && services[1..][k] == r.value && ServiceId(r.value) == id &&
                   forall j :: 0 <= j < k ==> ServiceId(services[1..][j]) != id;
          assert services[k + 1] == r.value;
          forall j | 0 <= j < k + 1 ensures ServiceId(services[j]) != id {
            if j > 0 { assert services[j] == services[1..][j - 1]; }
          }
        }
      }
      r
  }

  /** `Broker::find_service`: the for-loop search with early return finds
   *  the first connected service whose negotiated id is `id`. */
  method FindService(b: BrokerState, id: Identifier) returns (r: Option<ServiceConnection>)
    ensures r == FirstWithId(b.services, id)
  {
    var i := 0;
    while i < |b.services|
      invariant 0 <= i <= |b.services|
      invariant FirstWithId(b.services, id) == FirstWithId(b.services[i..], id)
    {
      assert b.services[i..][1..] == b.services[i + 1..];
      if ServiceId(b.services[i]) == id {
        return Some(b.services[i]);
      }
      i := i + 1;
    }
    return None;
  }

  /** `Broker::version`: the configured version. */
  function Version(b: BrokerState): SoftwareVersion {
    b.config.version
  }

  /** `Broker::client_negotiation`: protocol 3.0.0, the broker's version, the
   *  configured client extensions and the negotiation of every connected
   *  service. */
  function ClientNegotiationOf(b: BrokerState): (r: ClientBrokerNegotiation)
    ensures r.monto == MONTO_3 && r.broker == b.config.version
    ensures r.extensions == b.config.clientExtensions
    ensures forall k :: 0 <= k < |b.services| ==> b.services[k].negotiation in r.services
    ensures forall sn :: sn in r.services ==>
              exists k :: 0 <= k < |b.services| && b.services[k].negotiation == sn
  {
    var services := set s | s in b.services :: s.negotiation;
    assert forall k :: 0 <= k < |b.services| ==> b.services[k] in b.services;
    ClientBrokerNegotiation(MONTO_3, Version(b), b.config.clientExtensions, services)
  }

  /** `Broker::service_negotiation`: the same record the broker sends to
   *  each service when it connects. */
  function ServiceNegotiationOf(b: BrokerState): (r: ServiceBrokerNegotiation)
    ensures r == ServiceHello(b.config)
    ensures r.broker == Version(b)
  {
    ServiceBrokerNegotiation(MONTO_3, Version(b), b.config.serviceExtensions)
  }

  /** A client is accepted by this broker exactly when it speaks major version 3. */
  lemma BrokerAcceptsMajor3(b: BrokerState, cn: ClientNegotiation)
    ensures ClientHelloAnswer(ClientNegotiationOf(b), cn).status == OK <==> cn.monto.major == 3
  {
  }

  /** A service routing the broker's hello answers 200 exactly when its own
   *  protocol major is 3. */
  lemma ServiceAcceptsBrokerHello(config: BrokerConfig, sn: ServiceNegotiation)
    ensures Route(Post, "/monto/version", Decoded(ServiceHello(config)), sn).status == OK
            <==> sn.monto.major == 3
  {
  }

  /** The status of the broker's answer to a failed product request:
   *  400 for a bad request, 502 when a service could not be reached,
   *  500 otherwise. */
  function ReqProductsStatus(e: BrokerGetError): (r: nat)
    ensures r == BAD_REQUEST <==> e.NoSuchService? || e.NoSuchProduct?
    ensures r == BAD_GATEWAY <==> e.ServiceConnectError?
    ensures r == INTERNAL_SERVER_ERROR <==> e.ServiceError? || e.Unresolvable?
  {
    match e
    case NoSuchService => BAD_REQUEST
    case NoSuchProduct => BAD_REQUEST
    case ServiceError(_, _) => INTERNAL_SERVER_ERROR
    case ServiceConnectError(_, _) => BAD_GATEWAY
    case Unresolvable(_) => INTERNAL_SERVER_ERROR
  }

  /** The body of the broker's answer: the product, or the error itself. */
  datatype ReqProductsBody = ProductBody(product: Product) | ErrorBody(error: BrokerGetError)

  /** `Client::req_products` after resolution: 200 with the product, or the
   *  error's status with the error as body. */
  function ReqProductsAnswer(resolved: Result<Product, BrokerGetError>): (r: JsonResponse<ReqProductsBody>)
    ensures r.status == OK <==> resolved.Ok?
    ensures resolved.Ok? ==> r.body == ProductBody(resolved.value)
    ensures resolved.Err? ==> r.body == ErrorBody(resolved.error) && r.status == ReqProductsStatus(resolved.error)
  {
    match resolved
    case Ok(p) => JsonResponse(OK, ProductBody(p))
    case Err(e) => JsonResponse(ReqProductsStatus(e), ErrorBody(e))
  }
}
