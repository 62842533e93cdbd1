/**
 * The broker's dependency resolution (broker/src/resolve/mod.rs, with the
 * service search also in src/broker/resolve/mod.rs): answer a product
 * request from the cache or from a service; when the service reports
 * unmet dependencies, resolve each of them (from the cache, another
 * service, or a source file read from disk) and ask again with them.
 *
 * The recursion is bounded by a fuel argument; `OutOfFuel` marks where
 * the broker would have gone on asking.
 */
module Resolve {
  import opened Wrappers
  import opened Messages
  import opened ProtocolMessages
  import opened BrokerService
  import opened Negotiation
  import opened Broker
  import opened Helpers
  import opened ProductCache

  // ---------------------------------------------------------------------
  // The pure parts
  // ---------------------------------------------------------------------

  /** `Broker::service_for` (and the same search inlined in `resolve_dep`):
   *  the negotiated id of the first service advertising `pd`. */
  function ServiceFor(services: seq<ServiceConnection>, pd: ProductDescriptor): (r: Option<Identifier>)
    ensures r.None? <==> forall k :: 0 <= k < |services| ==> pd !in services[k].negotiation.products
    ensures r.Some? ==>
      exists k :: 0 <= k < |services| && pd in services[k].negotiation.products &&
                  r.value == ServiceId(services[k]) &&
                  forall j :: 0 <= j < k ==> pd !in services[j].negotiation.products
  {
    if |services| == 0 then None
    else if pd in services[0].negotiation.products then Some(ServiceId(services[0]))
    else
      var r := ServiceFor(services[1..], pd);
      assert r.Some? ==>
        exists k :: 0 <= k < |services| && pd in services[k].negotiation.products &&
                    r.value == ServiceId(services[k]) &&
                    forall j :: 0 <= j < k ==> pd !in services[j].negotiation.products by {
        if r.Some? {
          var k :| 0 <= k < |services[1..]| && pd in services[1..][k].negotiation.products &&
                   r.value == ServiceId(services[1..][k]) &&
                   forall j :: 0 <= j < k ==> pd !in services[1..][j].negotiation.products;
          assert services[k + 1] == services[1..][k];
          forall j | 0 <= j < k + 1 ensures pd !in services[j].negotiation.products {
            if j > 0 { assert services[j] == services[1..][j - 1]; }
          }
        }
      }
      r
  }

  /** Handling one `UnusedDependency` notice: the first supplied product
   *  with that identifier is removed with `swap_remove`; an identifier not
   *  supplied is ignored. */
  function DropOne(ps: seq<Product>, pi: ProductIdentifier): seq<Product> {
    match FirstMatch(ps, pi.name, pi.language, pi.path)
    case Some(i) => SwapRemove(ps, i)
    case None => ps
  }

  /** Handling a list of notices in order. */
  function DropNoticed(ps: seq<Product>, notices: seq<ServiceNotice>): seq<Product> {
    if |notices| == 0 then ps
    else DropOne(DropNoticed(ps, notices[..|notices| - 1]), notices[|notices| - 1].dependency)
  }

  /** One notice removes at most one supplied product, and only one with
   *  the identifier it names. */
  lemma DropOneRemovesNamed(ps: seq<Product>, pi: ProductIdentifier)
    ensures multiset(DropOne(ps, pi)) <= multiset(ps)
    ensures |DropOne(ps, pi)| >= |ps| - 1
    ensures forall p :: IdentifierOf(p) != pi ==> multiset(DropOne(ps, pi))[p] == multiset(ps)[p]
  {
    var idx := FirstMatch(ps, pi.name, pi.language, pi.path);
    if idx.Some? {
      SwapRemoveMultiset(ps, idx.value);
      assert IdentifierOf(ps[idx.value]) == pi;
    }
  }

  /** Notices only remove supplied products, at most one each, and a
   *  product whose identifier no notice names is kept as often as it was
   *  supplied. */
  lemma {:induction false} DropNoticedRemovesNamed(ps: seq<Product>, notices: seq<ServiceNotice>)
    ensures multiset(DropNoticed(ps, notices)) <= multiset(ps)
    ensures |DropNoticed(ps, notices)| >= |ps| - |notices|
    ensures forall p :: (forall k :: 0 <= k < |notices| ==> notices[k].dependency != IdentifierOf(p)) ==>
              multiset(DropNoticed(ps, notices))[p] == multiset(ps)[p]
  {
    if |notices| > 0 {
      var n := |notices| - 1;
      var prev := DropNoticed(ps, notices[..n]);
      DropNoticedRemovesNamed(ps, notices[..n]);
      DropOneRemovesNamed(prev, notices[n].dependency);
      forall p | (forall k :: 0 <= k < |notices| ==> notices[k].dependency != IdentifierOf(p))
        ensures multiset(DropNoticed(ps, notices))[p] == multiset(ps)[p]
      {
        assert forall k :: 0 <= k < n ==> notices[..n][k] == notices[k];
        assert notices[n].dependency != IdentifierOf(p);
      }
    }
  }

  /** The `for` loop over the notices of a service's errors. */
  method RemoveUnused(ps: seq<Product>, notices: seq<ServiceNotice>) returns (r: seq<Product>)
    ensures r == DropNoticed(ps, notices)
  {
    r := ps;
    var i := 0;
    while i < |notices|
      invariant 0 <= i <= |notices|
      invariant r == DropNoticed(ps, notices[..i])
    {
      assert notices[..i + 1][..i] == notices[..i];
      var pi := notices[i].dependency;
      var idx := Position(r, pi.name, pi.language, pi.path);
      if idx.Some? {
        r := SwapRemove(r, idx.value);
      }
      i := i + 1;
    }
    assert notices[..|notices|] == notices;
  }

  // ---------------------------------------------------------------------
  // Resolution, as a function of the stored products
  // ---------------------------------------------------------------------

  /** How a resolution ends: with a product, a `BrokerGetError`, a panic of
   *  `Service::request` on an unexpected status, or out of fuel. */
  datatype Resolution =
    | Resolved(product: Product)
    | Failed(error: BrokerGetError)
    | Panicked
    | OutOfFuel

  /** What resolution consults besides the cache: the broker's connected
   *  services, the HTTP exchange with each of them, the text of the
   *  request errors that are reported as strings, and reading a file. */
  datatype Environment = Environment(
    broker: BrokerState,
    exchange: (ServiceConnection, BrokerRequest) -> RequestReply,
    describe: RequestErrorKind -> string,
    readFile: string -> Option<string>)

  /** A resolution's result and the stored products after it. */
  datatype Step = Step(result: Resolution, store: Store)

  /** What `Service::request` answers for the broker's request. */
  function Ask(env: Environment, s: ServiceConnection, pi: ProductIdentifier, ps: seq<Product>): RequestOutcome {
    Request(pi, ps, req => env.exchange(s, req))
  }

  /** `Client::resolve`: the cache first; else the service named `si`,
   *  asked with the supplied products; a service's own errors lead, after
   *  the notices are applied, to `resolve_next`. */
  function ResolveSpec(env: Environment, store: Store, si: Identifier, pi: ProductIdentifier,
                       ps: seq<Product>, fuel: nat): Step
    decreases fuel, 0, 0
  {
    match Lookup(store, pi)
    case Some(p) => Step(Resolved(p), store)
    case None =>
      match FirstWithId(env.broker.services, si)
      case None => Step(Failed(NoSuchService), store)
      case Some(s) =>
        match Ask(env, s, pi, ps)
        case Produced(sp) => Step(Resolved(sp.product), store)
        case RequestPanicked => Step(Panicked, store)
        case RequestFailed(RequestHyper(message)) => Step(Failed(ServiceConnectError(si, message)), store)
        case RequestFailed(ServiceErrorsReceived(ServiceErrors(errors, notices))) =>
          if fuel == 0 then Step(OutOfFuel, store)
          else ResolveNextSpec(env, store, si, pi, DropNoticed(ps, notices), errors, fuel - 1)
        case RequestFailed(e) => Step(Failed(ServiceError(si, env.describe(e))), store)
  }

  /** `Client::resolve_dep`: the cache; else the first service advertising
   *  the product, asked with no products; else, for a source, the file's
   *  text, which is then cached; else unresolvable. */
  function ResolveDepSpec(env: Environment, store: Store, pi: ProductIdentifier, fuel: nat): Step
    decreases fuel, 0, 1
  {
    match Lookup(store, pi)
    case Some(p) => Step(Resolved(p), store)
    case None =>
      match ServiceFor(env.broker.services, DescriptorOf(pi))
      case Some(si) => ResolveSpec(env, store, si, pi, [], fuel)
      case None =>
        if pi.name == Source then
          match env.readFile(pi.path)
          case None => Step(Failed(Unresolvable(pi)), store)
          case Some(text) =>
            var p := Product(pi.name, pi.language, pi.path, JString(text));
            Step(Resolved(p), Inserted(store, p))
        else Step(Failed(Unresolvable(pi)), store)
  }

  /** `Client::resolve_next`: takes the service's errors from the end; an
   *  unmet dependency is resolved and its product added to those supplied,
   *  any other error ends resolution; with no errors left, `resolve` runs
   *  again with the products gathered. */
  function ResolveNextSpec(env: Environment, store: Store, si: Identifier, pi: ProductIdentifier,
                           ps: seq<Product>, es: seq<ServiceError>, fuel: nat): Step
    decreases fuel, 1, |es|
  {
    if |es| == 0 then ResolveSpec(env, store, si, pi, ps, fuel)
    else
      match es[|es| - 1]
      case OtherError(message) => Step(Failed(ServiceError(si, message)), store)
      case UnmetDependency(dep) =>
        var d := ResolveDepSpec(env, store, dep, fuel);
        match d.result
        case Resolved(p) => ResolveNextSpec(env, d.store, si, pi, ps + [p], es[..|es| - 1], fuel)
        case _ => d
  }

  // ---------------------------------------------------------------------
  // Properties of resolution
  // ---------------------------------------------------------------------

  /** One store extends another: every lookup that hits in the first finds
   *  the same product in the second. */
  ghost predicate Extends(after: Store, before: Store) {
    forall pi :: Lookup(before, pi).Some? ==> Lookup(after, pi) == Lookup(before, pi)
  }

  lemma ExtendsTransitive(a: Store, b: Store, c: Store)
    requires Extends(b, a) && Extends(c, b)
    ensures Extends(c, a)
  {
  }

  /** An insertion into the cache happens only where a lookup missed, so
   *  it loses nothing. */
  lemma InsertedExtends(store: Store, p: Product)
    requires Lookup(store, IdentifierOf(p)).None?
    ensures Extends(Inserted(store, p), store)
  {
    forall pi | Lookup(store, pi).Some? ensures Lookup(Inserted(store, p), pi) == Lookup(store, pi) {
      LookupInserted(store, p, pi);
    }
  }

  /** Resolution never evicts or overwrites a cached product: it only adds
   *  source files it had to read. */
  lemma {:induction false} ResolveExtends(env: Environment, store: Store, si: Identifier,
                                          pi: ProductIdentifier, ps: seq<Product>, fuel: nat)
    ensures Extends(ResolveSpec(env, store, si, pi, ps, fuel).store, store)
    decreases fuel, 0, 0
  {
    if Lookup(store, pi).None? {
      match FirstWithId(env.broker.services, si)
      case None =>
      case Some(s) =>
        match Ask(env, s, pi, ps)
        case RequestFailed(ServiceErrorsReceived(ServiceErrors(errors, notices))) =>
          if fuel > 0 {
            ResolveNextExtends(env, store, si, pi, DropNoticed(ps, notices), errors, fuel - 1);
          }
        case _ =>
    }
  }

  lemma {:induction false} ResolveDepExtends(env: Environment, store: Store, pi: ProductIdentifier, fuel: nat)
    ensures Extends(ResolveDepSpec(env, store, pi, fuel).store, store)
    decreases fuel, 0, 1
  {
    if Lookup(store, pi).None? {
      match ServiceFor(env.broker.services, DescriptorOf(pi))
      case Some(si) => ResolveExtends(env, store, si, pi, [], fuel);
      case None =>
        if pi.name == Source && env.readFile(pi.path).Some? {
          var p := Product(pi.name, pi.language, pi.path, JString(env.readFile(pi.path).value));
          assert IdentifierOf(p) == pi;
          InsertedExtends(store, p);
        }
    }
  }

  lemma {:induction false} ResolveNextExtends(env: Environment, store: Store, si: Identifier,
                                              pi: ProductIdentifier, ps: seq<Product>,
                                              es: seq<ServiceError>, fuel: nat)
    ensures Extends(ResolveNextSpec(env, store, si, pi, ps, es, fuel).store, store)
    decreases fuel, 1, |es|
  {
    if |es| == 0 {
      ResolveExtends(env, store, si, pi, ps, fuel);
    } else if es[|es| - 1].UnmetDependency? {
      var d := ResolveDepSpec(env, store, es[|es| - 1].dependency, fuel);
      ResolveDepExtends(env, store, es[|es| - 1].dependency, fuel);
      if d.result.Resolved? {
        ResolveNextExtends(env, d.store, si, pi, ps + [d.result.product], es[..|es| - 1], fuel);
        ExtendsTransitive(store, d.store, ResolveNextSpec(env, store, si, pi, ps, es, fuel).store);
      }
    }
  }

  /** A cache hit answers without asking any service, and an unknown
   *  service id is `NoSuchService`; neither touches the cache. */
  lemma ResolveShortCuts(env: Environment, store: Store, si: Identifier, pi: ProductIdentifier,
                         ps: seq<Product>, fuel: nat)
    ensures Lookup(store, pi).Some? ==>
      ResolveSpec(env, store, si, pi, ps, fuel) == Step(Resolved(Lookup(store, pi).value), store)
    ensures Lookup(store, pi).None? && (forall k :: 0 <= k < |env.broker.services| ==>
                                         ServiceId(env.broker.services[k]) != si) ==>
      ResolveSpec(env, store, si, pi, ps, fuel) == Step(Failed(NoSuchService), store)
  {
  }

  /** The service's errors are handled from the last one back: an `Other`
   *  error at the end stops resolution at once, whatever comes before it,
   *  so of two `Other` errors the later one is reported. */
  lemma ErrorsFromTheEnd(env: Environment, store: Store, si: Identifier, pi: ProductIdentifier,
                         ps: seq<Product>, es: seq<ServiceError>, a: string, b: string, fuel: nat)
    ensures ResolveNextSpec(env, store, si, pi, ps, es + [OtherError(b)], fuel) ==
            Step(Failed(ServiceError(si, b)), store)
    ensures ResolveNextSpec(env, store, si, pi, ps, [OtherError(a), OtherError(b)], fuel) ==
            Step(Failed(ServiceError(si, b)), store)
  {
  }

  /** A dependency that is neither cached, nor advertised by any service,
   *  nor a readable source is unresolvable. */
  lemma UnadvertisedDependency(env: Environment, store: Store, pi: ProductIdentifier, fuel: nat)
    requires Lookup(store, pi).None?
    requires forall k :: 0 <= k < |env.broker.services| ==> DescriptorOf(pi) !in env.broker.services[k].negotiation.products
    requires pi.name != Source || env.readFile(pi.path).None?
    ensures ResolveDepSpec(env, store, pi, fuel) == Step(Failed(Unresolvable(pi)), store)
  {
  }

  /** A source read from disk is cached: asking for it again hits. */
  lemma SourceReadIsCached(env: Environment, store: Store, pi: ProductIdentifier, fuel: nat)
    requires Lookup(store, pi).None? && pi.name == Source && env.readFile(pi.path).Some?
    requires forall k :: 0 <= k < |env.broker.services| ==> DescriptorOf(pi) !in env.broker.services[k].negotiation.products
    ensures var d := ResolveDepSpec(env, store, pi, fuel);
      d.result == Resolved(Product(Source, pi.language, pi.path, JString(env.readFile(pi.path).value))) &&
      Lookup(d.store, pi) == Some(d.result.product)
  {
    var p := Product(Source, pi.language, pi.path, JString(env.readFile(pi.path).value));
    LookupInserted(store, p, pi);
  }

  // ---------------------------------------------------------------------
  // Resolution, on the broker's cache
  // ---------------------------------------------------------------------

  /** `Broker::from_cache`: the cache's lookup; it changes nothing. */
  function FromCache(cache: Cache, pi: ProductIdentifier): (r: Option<Product>)
    reads cache
    ensures r.Some? ==> IdentifierOf(r.value) == pi
    ensures r == Lookup(cache.products, pi)
  {
    cache.Get(pi)
  }

  /** `Client::resolve` on the broker's cache. */
  method Resolve(env: Environment, cache: Cache, si: Identifier, pi: ProductIdentifier,
                 ps: seq<Product>, fuel: nat) returns (r: Resolution)
    requires cache.Valid()
    modifies cache
    ensures cache.Valid()
    ensures var step := ResolveSpec(env, old(cache.products), si, pi, ps, fuel);
      r == step.result && cache.products == step.store
    decreases fuel, 0, 0
  {
    var cached := FromCache(cache, pi);
    if cached.Some? {
      return Resolved(cached.value);
    }
    var service := FindService(env.broker, si);
    if service.None? {
      return Failed(NoSuchService);
    }
    match Ask(env, service.value, pi, ps)
    case Produced(sp) =>
      r := Resolved(sp.product);
    case RequestPanicked =>
      r := Panicked;
    case RequestFailed(RequestHyper(message)) =>
      r := Failed(ServiceConnectError(si, message));
    case RequestFailed(ServiceErrorsReceived(ServiceErrors(errors, notices))) =>
      if fuel == 0 {
        r := OutOfFuel;
      } else {
        var remaining := RemoveUnused(ps, notices);
        r := ResolveNext(env, cache, si, pi, remaining, errors, fuel - 1);
      }
    case RequestFailed(e) =>
      r := Failed(ServiceError(si, env.describe(e)));
  }

  /** `Client::resolve_dep` on the broker's cache. */
  method ResolveDep(env: Environment, cache: Cache, pi: ProductIdentifier, fuel: nat) returns (r: Resolution)
    requires cache.Valid()
    modifies cache
    ensures cache.Valid()
    ensures var step := ResolveDepSpec(env, old(cache.products), pi, fuel);
      r == step.result && cache.products == step.store
    decreases fuel, 0, 1
  {
    var cached := FromCache(cache, pi);
    if cached.Some? {
      return Resolved(cached.value);
    }
    var service := ServiceFor(env.broker.services, DescriptorOf(pi));
    if service.Some? {
      r := Resolve(env, cache, service.value, pi, [], fuel);
    } else if pi.name == Source {
      var contents := env.readFile(pi.path);
      if contents.None? {
        r := Failed(Unresolvable(pi));
      } else {
        var p := Product(pi.name, pi.language, pi.path, JString(contents.value));
        cache.Add(p);
        r := Resolved(p);
      }
    } else {
      r := Failed(Unresolvable(pi));
    }
  }

  /** `Client::resolve_next` on the broker's cache: `es.pop()`, then either
   *  stop, or resolve the dependency, `ps.push` it and go on. */
  method ResolveNext(env: Environment, cache: Cache, si: Identifier, pi: ProductIdentifier,
                     ps: seq<Product>, es: seq<ServiceError>, fuel: nat) returns (r: Resolution)
    requires cache.Valid()
    modifies cache
    ensures cache.Valid()
    ensures var step := ResolveNextSpec(env, old(cache.products), si, pi, ps, es, fuel);
      r == step.result && cache.products == step.store
    decreases fuel, 1, |es|
  {
    if |es| == 0 {
      r := Resolve(env, cache, si, pi, ps, fuel);
      return;
    }
    var se := es[|es| - 1];
    var rest := es[..|es| - 1];
    match se
    case OtherError(message) =>
      r := Failed(ServiceError(si, message));
    case UnmetDependency(dep) =>
      var d := ResolveDep(env, cache, dep, fuel);
      if d.Resolved? {
        r := ResolveNext(env, cache, si, pi, ps + [d.product], rest, fuel);
      } else {
        r := d;
      }
  }

  /** `Client::req_products`: resolution starts with no supplied products;
   *  a product or a `BrokerGetError` is answered with the status table of
   *  `ReqProductsAnswer`, while a panic or running out of fuel gives no
   *  answer. */
  method ReqProducts(env: Environment, cache: Cache, si: Identifier, pi: ProductIdentifier, fuel: nat)
    returns (answer: Option<JsonResponse<ReqProductsBody>>)
    requires cache.Valid()
    modifies cache
    ensures cache.Valid()
    ensures var step := ResolveSpec(env, old(cache.products), si, pi, [], fuel);
      cache.products == step.store &&
      match step.result
      case Resolved(p) => answer == Some(ReqProductsAnswer(Ok(p)))
      case Failed(e) => answer == Some(ReqProductsAnswer(Err(e)))
      case _ => answer == None
  {
    var r := Resolve(env, cache, si, pi, [], fuel);
    match r
    case Resolved(p) => answer := Some(ReqProductsAnswer(Ok(p)));
    case Failed(e) => answer := Some(ReqProductsAnswer(Err(e)));
    case _ => answer := None;
  }
}
