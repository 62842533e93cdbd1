/**
 * The records exchanged by clients, brokers and services during version
 * negotiation and product requests (the Client Protocol and Service Protocol
 * message declarations), together with the error kinds the broker and the
 * client library report.
 */
module ProtocolMessages {
  import opened Messages

  /** An extension to the Service Protocol; only unknown ones exist. */
  datatype ServiceExtension = UnknownServiceExtension(name: string)

  /** An extension to the Client Protocol; only unknown ones exist. */
  datatype ClientExtension = UnknownClientExtension(name: string)

  /** What a broker says to a service during version negotiation. */
  datatype ServiceBrokerNegotiation = ServiceBrokerNegotiation(
    monto: ProtocolVersion, broker: SoftwareVersion, extensions: set<ServiceExtension>)

  /** What a service says to a broker during version negotiation. */
  datatype ServiceNegotiation = ServiceNegotiation(
    monto: ProtocolVersion, service: SoftwareVersion,
    extensions: set<ServiceExtension>, products: set<ProductDescriptor>)

  /** What a client says to a broker during version negotiation. */
  datatype ClientNegotiation = ClientNegotiation(
    monto: ProtocolVersion, client: SoftwareVersion, extensions: set<ClientExtension>)

  /** What a broker says to a client during version negotiation. */
  datatype ClientBrokerNegotiation = ClientBrokerNegotiation(
    monto: ProtocolVersion, broker: SoftwareVersion,
    extensions: set<ClientExtension>, services: set<ServiceNegotiation>)

  /** A product request from the broker to a service. */
  datatype BrokerRequest = BrokerRequest(request: ProductIdentifier, products: seq<Product>)

  /** One error a service reports. */
  datatype ServiceError = UnmetDependency(dependency: ProductIdentifier) | OtherError(message: string)

  /** A non-error condition a service reports. */
  datatype ServiceNotice = UnusedDependency(dependency: ProductIdentifier)

  /** A failed product computation. */
  datatype ServiceErrors = ServiceErrors(errors: seq<ServiceError>, notices: seq<ServiceNotice>)

  /** A successful product computation. */
  datatype ServiceProduct = ServiceProduct(product: Product, notices: seq<ServiceNotice>)

  /** Why the broker could not answer a client's product request. */
  datatype BrokerGetError =
    | NoSuchService
    | NoSuchProduct
    | ServiceError(service: Identifier, error: string)
    | ServiceConnectError(service: Identifier, error: string)
    | Unresolvable(pi: ProductIdentifier)

  /** Why a product request from the broker to a service failed.
   *  `Hyper`, `Serde` and `Uri` stand for the wrapped foreign errors. */
  datatype RequestErrorKind =
    | RequestHyper(message: string)
    | RequestSerde
    | RequestUri
    | NotExposed(descriptor: ProductDescriptor)
    | ServiceErrorsReceived(errors: ServiceErrors)

  /** Why connecting the broker to a service failed. */
  datatype ServiceConnectErrorKind =
    | ConnectHyper
    | ConnectSerde
    | ConnectUri
    | BadStatus(code: nat)
    | NotCompatible(broker: ProtocolVersion, service: ProtocolVersion)

  /** The HTTP status codes the protocol uses. */
  const OK: nat := 200
  const BAD_REQUEST: nat := 400
  const NOT_FOUND: nat := 404
  const INTERNAL_SERVER_ERROR: nat := 500
  const BAD_GATEWAY: nat := 502

  /** The protocol version every component of this implementation speaks. */
  const MONTO_3: ProtocolVersion := ProtocolVersion(3, 0, 0)
}
