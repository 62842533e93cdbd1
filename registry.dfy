/**
 * The service library's provider registry (service/src/lib.rs): a map from
 * product descriptor to the provider that computes that product.
 */
module Registry {
  import opened Messages
  import opened ProtocolMessages

  /** A provider; what it computes is not modelled, only the descriptor it
   *  reports and an identity telling providers apart. */
  datatype Provider = Provider(descriptor: ProductDescriptor, id: nat)

  /** The parts of the service configuration the registry reports. */
  datatype ServiceSettings = ServiceSettings(extensions: set<ServiceExtension>, version: SoftwareVersion)

  /** A map with one more entry has one more key, unless the key was there. */
  lemma InsertSize<K, V>(m: map<K, V>, k: K, v: V)
    ensures |m[k := v]| == if k in m then |m| else |m| + 1
  {
    if k in m {
      assert m[k := v].Keys == m.Keys;
    } else {
      assert m[k := v].Keys == m.Keys + {k};
    }
  }

  class Service {
    const config: ServiceSettings
    var funcs: map<ProductDescriptor, Provider>

    /** `Service::new`: no providers yet. */
    constructor(config: ServiceSettings)
      ensures this.config == config && funcs == map[]
    {
      this.config := config;
      funcs := map[];
    }

    /** `Service::negotiation`: protocol 3.0.0, the configured extensions
     *  and version, and exactly the registered descriptors. */
    function Negotiation(): (r: ServiceNegotiation)
      reads this
      ensures r.monto == MONTO_3
      ensures r.extensions == config.extensions && r.service == config.version
      ensures forall d :: d in r.products <==> d in funcs
    {
      ServiceNegotiation(MONTO_3, config.version, config.extensions, funcs.Keys)
    }

    /** `Service::add_provider`: the provider is registered under its own
     *  descriptor, replacing any provider already there; every other
     *  descriptor keeps its provider, and the count grows only for a new
     *  descriptor. */
    method AddProvider(p: Provider)
      modifies this
      ensures funcs == old(funcs)[p.descriptor := p]
      ensures p.descriptor in funcs && funcs[p.descriptor] == p
      ensures forall d :: d != p.descriptor ==> (d in funcs <==> d in old(funcs)) &&
                                                (d in funcs ==> funcs[d] == old(funcs)[d])
      ensures |funcs| == if p.descriptor in old(funcs) then |old(funcs)| else |old(funcs)| + 1
    {
      InsertSize(funcs, p.descriptor, p);
      funcs := funcs[p.descriptor := p];
    }
  }

  /** Registering two providers for the same descriptor keeps only the
   *  second, and the service then advertises that descriptor once. */
  method ReplaceExample(settings: ServiceSettings, d: ProductDescriptor) returns (s: Service)
    ensures fresh(s) && s.funcs == map[d := Provider(d, 2)]
    ensures s.Negotiation().products == {d}
  {
    s := new Service(settings);
    s.AddProvider(Provider(d, 1));
    s.AddProvider(Provider(d, 2));
  }
}
