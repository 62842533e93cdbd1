/**
 * The provider helpers services are written with: find the product a
 * provider needs among those the broker supplied, remove it with
 * `swap_remove`, run the provider's function on it, and report every
 * product left over as an unused dependency. Three generations are kept
 * apart: service/src/helpers.rs, the older src/service/helpers.rs (whose
 * `simple_fn` is repeated in services/monto3-example-services/src/helpers.rs)
 * and the two-product variant in services/monto3-loctrans/src/util.rs.
 */
module Helpers {
  import opened Wrappers
  import opened Messages
  import opened ProtocolMessages

  /** What a provider returns: the product value or its errors, and notices. */
  datatype ProviderOutput = ProviderOutput(result: Result<Json, seq<ServiceError>>, notices: seq<ServiceNotice>)

  // ---------------------------------------------------------------------
  // Vector primitives
  // ---------------------------------------------------------------------

  /** `Vec::swap_remove(i)`: the last element moves into slot `i` and the
   *  vector shrinks by one. */
  function SwapRemove<T>(s: seq<T>, i: nat): (r: seq<T>)
    requires i < |s|
    ensures |r| == |s| - 1
    ensures i < |r| ==> r[i] == s[|s| - 1]
    ensures forall k :: 0 <= k < |r| && k != i ==> r[k] == s[k]
  {
    if i == |s| - 1 then s[..i] else s[..i] + [s[|s| - 1]] + s[i + 1..|s| - 1]
  }

  /** Apart from the removed element, nothing is lost or added. */
  lemma SwapRemoveMultiset<T>(s: seq<T>, i: nat)
    requires i < |s|
    ensures multiset(SwapRemove(s, i)) + multiset{s[i]} == multiset(s)
  {
    if i == |s| - 1 {
      assert s == s[..i] + [s[i]];
    } else {
      assert s == s[..i] + [s[i]] + s[i + 1..|s| - 1] + [s[|s| - 1]];
      assert SwapRemove(s, i) == s[..i] + [s[|s| - 1]] + s[i + 1..|s| - 1];
    }
  }

  /** The product a helper looks for: same name, language and path. */
  predicate Matches(p: Product, pn: ProductName, lang: Language, path: string) {
    p.name == pn && p.language == lang && p.path == path
  }

  /** `Iterator::position` with `Matches`: the first matching index. */
  function FirstMatch(ps: seq<Product>, pn: ProductName, lang: Language, path: string): (r: Option<nat>)
    ensures r.None? <==> forall k :: 0 <= k < |ps| ==> !Matches(ps[k], pn, lang, path)
    ensures r.Some? ==> r.value < |ps| && Matches(ps[r.value], pn, lang, path) &&
                        forall k :: 0 <= k < r.value ==> !Matches(ps[k], pn, lang, path)
  {
    if |ps| == 0 then None
    else if Matches(ps[0], pn, lang, path) then Some(0)
    else
      match FirstMatch(ps[1..], pn, lang, path)
      case None => None
      case Some(i) => Some(i + 1)
  }

  /** The first match is determined by the matches before it. */
  lemma FirstMatchAt(ps: seq<Product>, pn: ProductName, lang: Language, path: string, i: nat)
    requires i <= |ps|
    requires forall k :: 0 <= k < i ==> !Matches(ps[k], pn, lang, path)
    ensures i < |ps| && Matches(ps[i], pn, lang, path) ==> FirstMatch(ps, pn, lang, path) == Some(i)
    ensures i == |ps| ==> FirstMatch(ps, pn, lang, path) == None
  {
    var r := FirstMatch(ps, pn, lang, path);
    if r.Some? && i < |ps| && Matches(ps[i], pn, lang, path) {
      assert !(r.value < i);
      assert !(r.value > i);
    }
  }

  /** The search loop behind `position`. */
  method Position(ps: seq<Product>, pn: ProductName, lang: Language, path: string) returns (r: Option<nat>)
    ensures r == FirstMatch(ps, pn, lang, path)
  {
    var i := 0;
    while i < |ps|
      invariant 0 <= i <= |ps|
      invariant forall k :: 0 <= k < i ==> !Matches(ps[k], pn, lang, path)
    {
      if Matches(ps[i], pn, lang, path) {
        FirstMatchAt(ps, pn, lang, path, i);
        return Some(i);
      }
      i := i + 1;
    }
    FirstMatchAt(ps, pn, lang, path, i);
    return None;
  }

  /** One `UnusedDependency` notice per product, in order. */
  function UnusedNotices(ps: seq<Product>): (r: seq<ServiceNotice>)
    ensures |r| == |ps|
    ensures forall k :: 0 <= k < |ps| ==> r[k] == UnusedDependency(IdentifierOf(ps[k]))
  {
    if ps == [] then [] else [UnusedDependency(IdentifierOf(ps[0]))] + UnusedNotices(ps[1..])
  }

  /** `swap_remove` commutes with mapping every element. */
  lemma SwapRemoveMap<A, B>(s: seq<A>, t: seq<B>, f: A -> B, i: nat)
    requires i < |s| && |t| == |s|
    requires forall k :: 0 <= k < |s| ==> t[k] == f(s[k])
    ensures forall k :: 0 <= k < |s| - 1 ==> SwapRemove(t, i)[k] == f(SwapRemove(s, i)[k])
  {
  }

  /** The notices after a `swap_remove` are the notices with the same
   *  `swap_remove` applied. */
  lemma UnusedNoticesSwapRemove(ps: seq<Product>, i: nat)
    requires i < |ps|
    ensures UnusedNotices(SwapRemove(ps, i)) == SwapRemove(UnusedNotices(ps), i)
  {
    SwapRemoveMap(ps, UnusedNotices(ps), p => UnusedDependency(IdentifierOf(p)), i);
  }

  /** After a `swap_remove`, the notices for what is left and the removed
   *  product together account for every supplied product exactly once. */
  lemma ConsumedOrNoticed(ps: seq<Product>, i: nat)
    requires i < |ps|
    ensures multiset(UnusedNotices(SwapRemove(ps, i))) + multiset{UnusedDependency(IdentifierOf(ps[i]))}
            == multiset(UnusedNotices(ps))
  {
    UnusedNoticesSwapRemove(ps, i);
    SwapRemoveMultiset(UnusedNotices(ps), i);
  }

  /** The error a helper reports when a product it needs is missing. */
  function Unmet(pn: ProductName, lang: Language, path: string): ServiceError {
    UnmetDependency(ProductIdentifier(pn, lang, path))
  }

  // ---------------------------------------------------------------------
  // service/src/helpers.rs
  // ---------------------------------------------------------------------

  /** `one_to_one_fn`: run `f` on the value of the first product matching
   *  (pn, lang, path), removed from the products; without one, report it as
   *  an unmet dependency without calling `f`. Either way the notices end with
   *  one per product left. */
  method OneToOneFn(path: string, products: seq<Product>, pn: ProductName, lang: Language,
                    f: Json -> ProviderOutput) returns (out: ProviderOutput)
    ensures match FirstMatch(products, pn, lang, path)
      case None =>
        out == ProviderOutput(Err([Unmet(pn, lang, path)]), UnusedNotices(products))
      case Some(i) =>
        out.result == f(products[i].value).result &&
        out.notices == f(products[i].value).notices + UnusedNotices(SwapRemove(products, i))
  {
    var ps := products;
    var r: Result<Json, seq<ServiceError>>;
    var n: seq<ServiceNotice>;
    var idx := Position(ps, pn, lang, path);
    if idx.Some? {
      var v := ps[idx.value].value;
      ps := SwapRemove(ps, idx.value);
      var o := f(v);
      r, n := o.result, o.notices;
    } else {
      r, n := Err([Unmet(pn, lang, path)]), [];
    }
    n := ExtendUnused(n, ps);
    out := ProviderOutput(r, n);
  }

  /** `n.extend(products.map(UnusedDependency))`: appends one notice per product. */
  method ExtendUnused(n: seq<ServiceNotice>, ps: seq<Product>) returns (n': seq<ServiceNotice>)
    ensures n' == n + UnusedNotices(ps)
  {
    n' := n;
    var k := 0;
    while k < |ps|
      invariant 0 <= k <= |ps|
      invariant n' == n + UnusedNotices(ps[..k])
    {
      assert ps[..k + 1] == ps[..k] + [ps[k]];
      UnusedNoticesAppend(ps[..k], ps[k]);
      n' := n' + [UnusedDependency(IdentifierOf(ps[k]))];
      k := k + 1;
    }
    assert ps[..k] == ps;
  }

  lemma UnusedNoticesAppend(ps: seq<Product>, p: Product)
    ensures UnusedNotices(ps + [p]) == UnusedNotices(ps) + [UnusedDependency(IdentifierOf(p))]
  {
    var l := UnusedNotices(ps + [p]);
    var r := UnusedNotices(ps) + [UnusedDependency(IdentifierOf(p))];
    assert |l| == |r|;
    forall k | 0 <= k < |l| ensures l[k] == r[k] {
      if k < |ps| { assert (ps + [p])[k] == ps[k]; }
    }
  }

  /** The outcome for a source value in the newer `simple_fn`: a string is
   *  handed to `f`, whose error message becomes an `Other` error. */
  function SourceResult(f: string -> Result<Json, string>, v: Json): (r: Result<Json, seq<ServiceError>>)
    ensures v.JString? && f(v.text).Ok? ==> r == Ok(f(v.text).value)
    ensures v.JString? && f(v.text).Err? ==> r == Err([OtherError(f(v.text).error)])
    ensures !v.JString? ==> r == Err([OtherError("Invalid source product")])
  {
    match v
    case JString(s) =>
      (match f(s)
       case Ok(value) => Ok(value)
       case Err(e) => Err([OtherError(e)]))
    case JOther(_) => Err([OtherError("Invalid source product")])
  }

  /** `simple_fn`: `one_to_one_fn` on the Source product, with no notices of
   *  its own. */
  method SimpleFn(path: string, products: seq<Product>, lang: Language,
                  f: string -> Result<Json, string>) returns (out: ProviderOutput)
    ensures match FirstMatch(products, Source, lang, path)
      case None =>
        out == ProviderOutput(Err([Unmet(Source, lang, path)]), UnusedNotices(products))
      case Some(i) =>
        out == ProviderOutput(SourceResult(f, products[i].value), UnusedNotices(SwapRemove(products, i)))
  {
    out := OneToOneFn(path, products, Source, lang, v => ProviderOutput(SourceResult(f, v), []));
  }

  // ---------------------------------------------------------------------
  // src/service/helpers.rs (and services/monto3-example-services)
  // ---------------------------------------------------------------------

  /** The outcome for a source value in the older helpers: a string is
   *  handed to `f`; anything else is "bad source product". */
  function LegacySourceResult(f: string -> Result<Json, string>, v: Json): (r: Result<Json, ServiceError>)
    ensures v.JString? && f(v.text).Ok? ==> r == Ok(f(v.text).value)
    ensures v.JString? && f(v.text).Err? ==> r == Err(OtherError(f(v.text).error))
    ensures !v.JString? ==> r == Err(OtherError("bad source product"))
  {
    match v
    case JString(s) =>
      (match f(s)
       case Ok(value) => Ok(value)
       case Err(e) => Err(OtherError(e)))
    case JOther(_) => Err(OtherError("bad source product"))
  }

  /** One error becomes a one-element error list. */
  function SingleError(r: Result<Json, ServiceError>): (out: Result<Json, seq<ServiceError>>)
    ensures r.Ok? <==> out.Ok?
    ensures r.Ok? ==> out.value == r.value
    ensures r.Err? ==> out.error == [r.error]
  {
    match r
    case Ok(v) => Ok(v)
    case Err(e) => Err([e])
  }

  /** The older `one_to_one_fn`: the first (pn, lang, path) match is removed
   *  and its string value handed to `f`. A missing product is reported as
   *  an unmet Source dependency, whatever `pn` was. Every product left
   *  becomes a notice, on success and failure alike, and a failure is
   *  always exactly one error. */
  method LegacyOneToOneFn(path: string, products: seq<Product>, pn: ProductName, lang: Language,
                          f: string -> Result<Json, string>) returns (out: ProviderOutput)
    ensures match FirstMatch(products, pn, lang, path)
      case None =>
        out == ProviderOutput(Err([Unmet(Source, lang, path)]), UnusedNotices(products))
      case Some(i) =>
        out == ProviderOutput(SingleError(LegacySourceResult(f, products[i].value)),
                              UnusedNotices(SwapRemove(products, i)))
    ensures out.result.Err? ==> |out.result.error| == 1
  {
    var ps := products;
    var r: Result<Json, ServiceError>;
    var idx := Position(ps, pn, lang, path);
    if idx.Some? {
      var v := ps[idx.value].value;
      ps := SwapRemove(ps, idx.value);
      r := LegacySourceResult(f, v);
    } else {
      r := Err(Unmet(Source, lang, path));
    }
    out := ProviderOutput(SingleError(r), UnusedNotices(ps));
  }

  /** The older `simple_fn` (also the example services' `simple_fn`): the
   *  older `one_to_one_fn` on the Source product. */
  method LegacySimpleFn(path: string, products: seq<Product>, lang: Language,
                        f: string -> Result<Json, string>) returns (out: ProviderOutput)
    ensures match FirstMatch(products, Source, lang, path)
      case None =>
        out == ProviderOutput(Err([Unmet(Source, lang, path)]), UnusedNotices(products))
      case Some(i) =>
        out == ProviderOutput(SingleError(LegacySourceResult(f, products[i].value)),
                              UnusedNotices(SwapRemove(products, i)))
  {
    out := LegacyOneToOneFn(path, products, Source, lang, f);
  }

  /** Asking the older helper for a product that is not Source, when it is
   *  missing, reports an unmet Source dependency instead of the product. */
  method LegacyUnmetNamesSource(path: string, lang: Language, id: Identifier,
                                f: string -> Result<Json, string>) returns (out: ProviderOutput)
    ensures out.result == Err([Unmet(Source, lang, path)])
    ensures out.result != Err([Unmet(OtherProduct(id), lang, path)])
  {
    out := LegacyOneToOneFn(path, [], OtherProduct(id), lang, f);
  }

  // ---------------------------------------------------------------------
  // services/monto3-loctrans/src/util.rs
  // ---------------------------------------------------------------------

  /** `f`'s error message becomes an `Other` error. */
  function MapErrToOther(r: Result<Json, string>): (out: Result<Json, seq<ServiceError>>)
    ensures r.Ok? ==> out == Ok(r.value)
    ensures r.Err? ==> out == Err([OtherError(r.error)])
  {
    match r
    case Ok(v) => Ok(v)
    case Err(e) => Err([OtherError(e)])
  }

  /** `product_and_src`: take the requested product, then the source, from
   *  the supplied products; either missing is an unmet dependency with no
   *  notices. A string source runs `f` on both values, with notices for the
   *  products left; any other source value is an error with no notices. */
  method ProductAndSrc(path: string, products: seq<Product>, pn: ProductName, lang: Language,
                       f: (Json, string) -> Result<Json, string>) returns (out: ProviderOutput)
    ensures match FirstMatch(products, pn, lang, path)
      case None => out == ProviderOutput(Err([Unmet(pn, lang, path)]), [])
      case Some(i) =>
        var rest := SwapRemove(products, i);
        match FirstMatch(rest, Source, lang, path)
        case None => out == ProviderOutput(Err([Unmet(Source, lang, path)]), [])
        case Some(j) =>
          if rest[j].value.JString? then
            out == ProviderOutput(MapErrToOther(f(products[i].value, rest[j].value.text)),
                                  UnusedNotices(SwapRemove(rest, j)))
          else
            out == ProviderOutput(Err([OtherError("Invalid source product")]), [])
  {
    var ps := products;
    var idx := Position(ps, pn, lang, path);
    if idx.None? {
      return ProviderOutput(Err([Unmet(pn, lang, path)]), []);
    }
    var requested := ps[idx.value].value;
    ps := SwapRemove(ps, idx.value);
    var sidx := Position(ps, Source, lang, path);
    if sidx.None? {
      return ProviderOutput(Err([Unmet(Source, lang, path)]), []);
    }
    var source := ps[sidx.value].value;
    ps := SwapRemove(ps, sidx.value);
    match source {
      case JString(text) =>
        out := ProviderOutput(MapErrToOther(f(requested, text)), UnusedNotices(ps));
      case JOther(_) =>
        out := ProviderOutput(Err([OtherError("Invalid source product")]), []);
    }
  }

  /** Where an element of `SwapRemove(s, i)` sat before the removal. */
  function OriginalIndex(n: nat, i: nat, j: nat): (k: nat)
    requires i < n && j < n - 1
    ensures k < n && k != i
  {
    if j == i then n - 1 else j
  }

  /** When the requested product is Source itself, `product_and_src` gets to
   *  `f` only if two different supplied products match. */
  lemma ProductAndSrcNeedsTwoSources(products: seq<Product>, lang: Language, path: string)
    requires FirstMatch(products, Source, lang, path).Some?
    requires var i := FirstMatch(products, Source, lang, path).value;
             FirstMatch(SwapRemove(products, i), Source, lang, path).Some?
    ensures exists a, b :: 0 <= a < b < |products| &&
              Matches(products[a], Source, lang, path) && Matches(products[b], Source, lang, path)
  {
    var i := FirstMatch(products, Source, lang, path).value;
    var rest := SwapRemove(products, i);
    var j := FirstMatch(rest, Source, lang, path).value;
    var k := OriginalIndex(|products|, i, j);
    assert rest[j] == products[k];
    assert Matches(products[i], Source, lang, path) && Matches(products[k], Source, lang, path);
  }
}
