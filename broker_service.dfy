/**
 * The Service Protocol side of the broker (broker/src/service.rs, with the
 * same logic in broker/src/service/old.rs and, for connecting only, in
 * src/broker/service.rs): the hello sent to a service, the merge of the two
 * negotiations, and the mapping of a product reply's status to an outcome.
 */
module BrokerService {
  import opened Wrappers
  import opened Messages
  import opened ProtocolMessages

  /** The broker's configuration, as far as negotiation uses it. */
  datatype BrokerConfig = BrokerConfig(
    version: SoftwareVersion,
    clientExtensions: set<ClientExtension>,
    serviceExtensions: set<ServiceExtension>)

  /** Where a service listens. */
  datatype ServiceConfig = ServiceConfig(scheme: string, addr: string, base: string)

  /** A connected service. */
  datatype ServiceConnection = ServiceConnection(
    config: ServiceConfig,
    extensions: set<ServiceExtension>,
    negotiation: ServiceNegotiation,
    protocol: ProtocolVersion)

  /** The hello sent to every service: protocol 3.0.0, the configured
   *  broker version and every configured service extension. */
  function ServiceHello(config: BrokerConfig): (r: ServiceBrokerNegotiation)
    ensures r.monto == MONTO_3
    ensures r.broker == config.version && r.extensions == config.serviceExtensions
  {
    ServiceBrokerNegotiation(MONTO_3, config.version, config.serviceExtensions)
  }

  /** What the HTTP exchange of the hello produced. */
  datatype HelloReply =
    | HelloTransportFailure
    | HelloReply(status: nat, body: Option<ServiceNegotiation>)

  /** The result of `Service::connect`; `ConnectPanicked` is the
   *  `panic!` on a status other than 200. */
  datatype ConnectOutcome =
    | Connected(service: ServiceConnection)
    | ConnectFailed(error: ServiceConnectErrorKind)
    | ConnectPanicked

  /** The merge of a service's negotiation into a connection: the lower of
   *  the two protocol versions and the extensions both sides know. */
  function Merge(config: BrokerConfig, serviceConfig: ServiceConfig, sn: ServiceNegotiation)
    : (r: ServiceConnection)
    ensures LessOrEqual(r.protocol, MONTO_3) && LessOrEqual(r.protocol, sn.monto)
    ensures r.protocol == MONTO_3 || r.protocol == sn.monto
    ensures forall e :: e in r.extensions <==> e in config.serviceExtensions && e in sn.extensions
    ensures r.negotiation == sn && r.config == serviceConfig
  {
    ServiceConnection(serviceConfig, config.serviceExtensions * sn.extensions, sn, MinVersion(MONTO_3, sn.monto))
  }

  /** `Service::connect`. `exchange` is the HTTP round trip of the hello. A
   *  version mismatch is never rejected: NotCompatible and BadStatus are
   *  declared but never produced. */
  function Connect(config: BrokerConfig, serviceConfig: ServiceConfig,
                   exchange: ServiceBrokerNegotiation -> HelloReply): (r: ConnectOutcome)
    ensures var reply := exchange(ServiceHello(config));
      (r.ConnectPanicked? <==> reply.HelloReply? && reply.status != OK) &&
      (r.ConnectFailed? ==> r.error == ConnectHyper || r.error == ConnectSerde) &&
      (r.Connected? <==> reply.HelloReply? && reply.status == OK && reply.body.Some?) &&
      (r.Connected? ==> r.service == Merge(config, serviceConfig, reply.body.value))
  {
    match exchange(ServiceHello(config))
    case HelloTransportFailure => ConnectFailed(ConnectHyper)
    case HelloReply(status, body) =>
      if status != OK then ConnectPanicked
      else
        match body
        case None => ConnectFailed(ConnectSerde)
        case Some(sn) => Connected(Merge(config, serviceConfig, sn))
  }

  /** A service speaking another major version is still connected. */
  lemma ConnectIgnoresMajor(config: BrokerConfig, serviceConfig: ServiceConfig, sn: ServiceNegotiation)
    requires sn.monto.major != 3
    ensures Connect(config, serviceConfig, _ => HelloReply(OK, Some(sn))).Connected?
    ensures !Compatible(Connect(config, serviceConfig, _ => HelloReply(OK, Some(sn))).service.protocol, MONTO_3) <==>
            sn.monto.major < 3
  {
  }

  /** The request body: the identifier and a copy of the supplied products. */
  function RequestBody(identifier: ProductIdentifier, products: seq<Product>): (r: BrokerRequest)
    ensures r.request == identifier && r.products == products
  {
    BrokerRequest(identifier, products)
  }

  /** What the HTTP exchange of a product request produced: a transport
   *  failure, or a status with the body decoded as each of the three
   *  types it may hold. */
  datatype RequestReply =
    | RequestTransportFailure(message: string)
    | RequestReply(status: nat, asProduct: Option<ServiceProduct>,
                   asDescriptor: Option<ProductDescriptor>, asErrors: Option<ServiceErrors>)

  /** The result of `Service::request`; `RequestPanicked` is the `panic!`
   *  on an unexpected status. */
  datatype RequestOutcome =
    | Produced(reply: ServiceProduct)
    | RequestFailed(error: RequestErrorKind)
    | RequestPanicked

  /** The status mapping of `Service::request`: 200 is a product, 400 is
   *  NotExposed with the descriptor the service sent, 500 is the service's
   *  errors, anything else panics; a body that does not decode is Serde. */
  function Request(identifier: ProductIdentifier, products: seq<Product>,
                   exchange: BrokerRequest -> RequestReply): (r: RequestOutcome)
    ensures var reply := exchange(RequestBody(identifier, products));
      (reply.RequestTransportFailure? ==> r == RequestFailed(RequestHyper(reply.message))) &&
      (reply.RequestReply? ==>
        (r.RequestPanicked? <==> reply.status !in {OK, BAD_REQUEST, INTERNAL_SERVER_ERROR}) &&
        (r.Produced? <==> reply.status == OK && reply.asProduct.Some?) &&
        (r.Produced? ==> r.reply == reply.asProduct.value) &&
        (reply.status == BAD_REQUEST && reply.asDescriptor.Some? ==>
           r == RequestFailed(NotExposed(reply.asDescriptor.value))) &&
        (reply.status == INTERNAL_SERVER_ERROR && reply.asErrors.Some? ==>
           r == RequestFailed(ServiceErrorsReceived(reply.asErrors.value))))
    ensures r.RequestFailed? && r.error == RequestSerde ==>
      var reply := exchange(RequestBody(identifier, products));
      reply.RequestReply? &&
      ((reply.status == OK && reply.asProduct.None?) ||
       (reply.status == BAD_REQUEST && reply.asDescriptor.None?) ||
       (reply.status == INTERNAL_SERVER_ERROR && reply.asErrors.None?))
  {
    match exchange(RequestBody(identifier, products))
    case RequestTransportFailure(message) => RequestFailed(RequestHyper(message))
    case RequestReply(status, asProduct, asDescriptor, asErrors) =>
      if status == OK then
        match asProduct
        case Some(sp) => Produced(sp)
        case None => RequestFailed(RequestSerde)
      else if status == BAD_REQUEST then
        match asDescriptor
        case Some(pd) => RequestFailed(NotExposed(pd))
        case None => RequestFailed(RequestSerde)
      else if status == INTERNAL_SERVER_ERROR then
        match asErrors
        case Some(ses) => RequestFailed(ServiceErrorsReceived(ses))
        case None => RequestFailed(RequestSerde)
      else RequestPanicked
  }
}
