# monto-rs in Dafny

A model of the core of monto-rs, a Rust implementation of version 3 of
the Monto protocol. In Monto, editors ("clients") and analysis backends
("services") exchange products (source text, errors, directory listings,
highlighting) through a broker. They talk JSON over HTTP.

The model covers these parts:

- **The protocol vocabulary**: dotted identifiers and their two parsers, languages, product names, product records, protocol and software versions, and the older string-wrapping types. Modules `Messages`, `LegacyTypes`, `Products` and `ProtocolMessages`; `Text` holds the `split`/`join` and decimal-printing helpers they use.
- **Version negotiation**: the client library checking the broker's answer, the broker answering a client, the broker connecting to a service, and a service answering the broker. Modules `Negotiation`, `BrokerService` and `Broker`.
- **The service library's provider registry** (`Registry`): a class whose map from descriptor to provider is updated in place.
- **The provider helpers** (`Helpers`). These find the needed product among those the broker supplied, remove it with `swap_remove`, call the provider, and report what is left as unused dependencies. There are three generations of them.
- **The broker's product cache and the filesystem watcher's eviction** (`ProductCache`, `CacheWatcher`). `Cache` is a class; eviction is a loop over `PathBuf::pop`.
- **The broker's dependency resolution** (`Resolve`). It is specified by functions over the stored products and implemented by methods on the cache.
- **The location translator's position-to-offset loop** (`LocTrans`).
- **The balanced-parentheses language** (`ParenLang`): its printer, its recursive-descent parser and the depth it reports.
- **The C binding's client constructor** (`CBinding`).
- **Anonymous unions** (`AnonymousUnion`).

The network, the filesystem, the HTTP exchanges and the provider
functions are parameters of the model. They are functions from the
request to the reply, so every property holds whatever they answer.

Some behaviours of the code are easy to miss, and the model keeps them:

- **Identifier parsing.** `Identifier::from_str` accepts "1a.b" and "a.b.", because its regex search is unanchored (`Messages.DigitLeadAccepted`, `Messages.TrailingDotOnlyFromStr`). Deserialisation accepts a different set of strings (`Messages.HyphenOnlyDeserialized`).
- **Duplicate providers.** `add_provider` replaces an earlier provider for the same descriptor instead of refusing the second one (`Registry.ReplaceExample`).
- **Version compatibility.** `ProtocolVersion::compatible` compares only major versions (`Negotiation.ClientHelloAnswerIgnoresMinor`, `Messages.CompatibleIsEquivalence`). The broker connects to a service of any major version (`BrokerService.ConnectIgnoresMajor`).
- **Transport.** Messages are JSON bodies of HTTP requests. A service answers every route other than `POST /monto/version` with 404 (`Negotiation.Route`).
- **The location translator's unit test** expects offset 5 for line 1, column 2 of its sample text. The code returns the column error there, because a newline comes first (`LocTrans.PositionExamples`).

## Model

| member | source | states |
|---|---|---|
| Text.Split | src/common/messages.rs:77 | `str::split` on one character: at least one piece, and no piece contains the delimiter |
| Text.JoinSplit | src/common/messages.rs:77 | joining the pieces of a split with the delimiter gives the original string back |
| Text.SplitJoin | src/common/messages.rs:77 | splitting a join of delimiter-free pieces gives back exactly those pieces |
| Text.SplitCons | src/common/messages.rs:43 | a delimiter-free head followed by the delimiter splits into that head and the split of the rest |
| Text.SplitAppend | broker/src/resolve/cache.rs:67 | the pieces of `x` + delimiter + `y` are the pieces of `x` followed by those of `y` |
| Text.DelimiterSplits | src/common/messages.rs:43-44 | a string containing the delimiter splits into at least two pieces |
| Text.SplitLast | src/common/messages.rs:78 | the last piece of a split (what `pop` takes) is a suffix of the string, preceded by the delimiter when there are several pieces |
| Text.NatToString | src/common/messages.rs:390 | the decimal text of a number is non-empty and all digits |
| Text.ParseNatToString | src/common/messages.rs:390 | reading back the decimal text of a number gives the number |
| Text.NatToStringInjective | src/common/messages.rs:390 | different numbers print differently |
| Messages.NamespacePrefixJoin | src/common/messages.rs:60-67 | the display of the namespace followed by the name is the '.'-join of all pieces |
| Messages.IdentifierString | src/common/messages.rs:60-67 | the display of an identifier is its namespace pieces and its name joined with '.' |
| Messages.IdentifierStringIsJoin | src/common/messages.rs:60-67 | an identifier displays as its pieces joined with '.' |
| Messages.FromPiecesDisplay | src/common/messages.rs:77-82 | splitting on '.' and popping the name, then displaying, gives the input string back |
| Messages.IdentifierFromStr | src/common/messages.rs:69-87 | an accepted string contains a '.', and its identifier has a non-empty namespace |
| Messages.DottedHasDot | src/common/messages.rs:74 | every string of the two-or-more-segment grammar contains a '.' |
| Messages.NoDotNoMatch | src/common/messages.rs:74-76 | a string without '.' has no match of the identifier regex, so `from_str` rejects it |
| Messages.StrictIdentifierAccepted | src/common/messages.rs:74-82 | every string of the strict grammar is accepted by `from_str` |
| Messages.IdentifierFromStrDisplay | src/common/messages.rs:60-87 | whenever `from_str` accepts, displaying the result gives the input back |
| Messages.IdentifierDisplayFromStr | src/common/messages.rs:60-87 | an identifier made of segments with a non-empty namespace displays as a strict-grammar string that parses back to it |
| Messages.IdentifierRegexWitness | src/common/messages.rs:74-76 | the unanchored regex finds a match exactly when a segment is followed by '.' and an identifier-start character |
| Messages.DigitLeadAccepted | src/common/messages.rs:74-82 | "1a.b" is outside the strict grammar, yet `from_str` accepts it as namespace ["1a"] and name "b" |
| Messages.SegmentRegexFindsIff | src/common/messages.rs:40 | the unanchored segment regex matches exactly when some character is a letter or '_' |
| Messages.IdentifierDeserialize | src/common/messages.rs:38-53 | a rejection reports the input as an invalid value |
| Messages.IdentifierDeserializeAccepts | src/common/messages.rs:43-46 | deserialising accepts exactly when there are two or more '.'-pieces and each has a letter or '_' |
| Messages.IdentifierDeserializeRejectsEmptyPiece | src/common/messages.rs:43-46 | an empty piece (leading, trailing or doubled '.') is rejected |
| Messages.IdentifierDeserializeRoundTrip | src/common/messages.rs:38-67 | an accepted string is the display of its result, and every strict-grammar string is accepted |
| Messages.HyphenOnlyDeserialized | src/common/messages.rs:38-87 | "a-.b" is accepted by deserialisation but rejected by `from_str`: the two parsers accept different sets |
| Messages.TrailingDotOnlyFromStr | src/common/messages.rs:38-87 | "a.b." is accepted by `from_str` but rejected by deserialisation |
| Messages.LanguageFrom | src/common/messages.rs:151-160 | the converted language's name is the input, and `Other` is never given a reserved name |
| Messages.LanguageName | src/common/messages.rs:114-121 | the name of a language; `Messages.LanguageNameRoundTrip` proves `From` inverts it for every language but an `Other` spelled like a built-in one |
| Messages.LanguageNameRoundTrip | src/common/messages.rs:114-160 | naming then converting gives back every language except an `Other` spelled like a built-in one, in both directions |
| Messages.ReservedOtherLanguageCollapses | src/common/messages.rs:151-160 | `Other("json")` comes back as `Json` |
| Messages.ProductNameString | src/common/messages.rs:323-333 | a vendor product displays as its identifier; a built-in name is non-empty and holds no '.', so it never reads as a vendor identifier |
| Messages.ProductNameFromStr | src/common/messages.rs:335-347 | whatever parses displays back to the input, and an unknown name without '.' is refused |
| Messages.ProductNameRoundTrip | src/common/messages.rs:323-347 | whenever parsing a product name succeeds, displaying it gives the input back |
| Messages.ProductNameDisplayRoundTrip | src/common/messages.rs:323-347 | every built-in name, and every vendor name with a strict identifier, parses back from its display |
| Messages.IdentifierOf | src/common/messages.rs:268-276 | the product identifier carries the product's name, language and path |
| Messages.DescriptorOf | src/common/messages.rs:232-239 | the descriptor carries the identifier's name and language |
| Messages.Compare | src/common/messages.rs:406-412 | equal exactly for equal versions; less exactly in lexicographic (major, minor, patch) order |
| Messages.CompareAntisymmetric | src/common/messages.rs:406-418 | swapping the arguments reverses the ordering |
| Messages.CompareTotalOrder | src/common/messages.rs:406-418 | the order is total, antisymmetric and transitive |
| Messages.MinVersion | broker/src/service.rs:84 | `min` is one of its arguments and no greater than either |
| Messages.Compatible | src/common/messages.rs:381-385 | versions are compatible when their majors agree; `Messages.CompatibleIsEquivalence` proves it an equivalence blind to minor and patch |
| Messages.CompatibleIsEquivalence | src/common/messages.rs:381-385 | compatibility is an equivalence relation that ignores minor and patch |
| Messages.VersionTripleInjective | src/common/messages.rs:388-392 | distinct versions display differently |
| Messages.ProtocolVersionString | src/common/messages.rs:388-392 | the display splits on '.' into exactly the three decimal numbers |
| Messages.SoftwareVersionString | src/common/messages.rs:451-462 | the display is the identifier, then the name and vendor part, then a space and the version triple; the middle part is empty exactly when name and vendor are both absent |
| Messages.NameVendorPart | src/common/messages.rs:453-458 | " (name by vendor)" when both are known, " (name)" for a name alone, " by vendor" for a vendor alone, and nothing exactly when neither is |
| Messages.SoftwareVersionStringInjective | src/common/messages.rs:451-462 | two versions of the same implementation display alike exactly when their version numbers agree |
| LegacyTypes.IdentifierIsValidIff | src/types/common.rs:15-20 | the unanchored check holds exactly when the text has an ASCII letter or '_' |
| LegacyTypes.IdentifierIsValidExamples | src/types/common.rs:15-20 | "a" is valid; "", "42" and "1.2-3" are not |
| LegacyTypes.IdentifierIsValid | src/types/common.rs:15-20 | the unanchored regex search on the text; `LegacyTypes.IdentifierIsValidIff` characterises it |
| LegacyTypes.NamespacedNameIsValidIff | src/types/common.rs:72-77 | validity holds exactly when some segment is followed by '/' and an identifier-start character |
| LegacyTypes.NamespacedNameExamples | src/types/common.rs:72-77 | a name without '/' is never valid; "edu.umn/x" and "x!a/b" are |
| LegacyTypes.NamespacedNameIsValid | src/types/common.rs:72-77 | some substring is in the namespaced-name language; `LegacyTypes.NamespacedNameIsValidIff` characterises it |
| LegacyTypes.DefaultMontoVersion | src/types/common.rs:36-44 | the default version displays as "3.0.0" |
| LegacyTypes.MontoCompare | src/types/common.rs:26 | the derived field order agrees with the semver order of the converted version, and is equal only for equal versions |
| LegacyTypes.MontoVersionString | src/types/common.rs:46-62 | the display splits on '.' into the three decimal numbers |
| LegacyTypes.MontoVersionStringInjective | src/types/common.rs:46-62 | distinct versions display differently |
| Products.SeverityToString | protocol/src/products.rs:182-193 | serialising a severity gives a string that deserialises to it |
| Products.SeverityFromString | protocol/src/products.rs:163-176 | accepts exactly "error", "warning" and "info", and otherwise reports the input as an invalid value |
| Products.SeverityCodecInverse | protocol/src/products.rs:163-193 | deserialise-then-serialise is the identity on accepted strings, and serialisation is injective |
| Products.SeveritySerializeTest | protocol/src/products.rs:195-206 | the JSON texts are "\"error\"", "\"warning\"" and "\"info\"" |
| Products.EntryTypeOf | protocol/src/products.rs:72-84 | the first of is-file, is-dir, is-symlink that holds decides the entry type, and `Other` means none holds |
| Products.EntryTypeOfExclusive | src/common/products.rs:54-66 | for a file type with one flag at most, each flag holds exactly when its entry type is chosen |
| Products.DirectoryProduct | protocol/src/products.rs:28-38 | a Directory product in no language, at the directory's path, holding the entries' JSON |
| Products.ErrorsProduct | protocol/src/products.rs:102-111 | an Errors product in the errors' language, at their path, holding the error list's JSON |
| Products.SourceProduct | protocol/src/products.rs:302-311 | a Source product whose JSON string value gives the contents back |
| Products.DirectoryName | src/common/products.rs:19-21 | the name displays as "directory" and parses back from it |
| Products.SourceName | src/common/products.rs:76-78 | the name displays as "source" and parses back from it |
| Negotiation.CollectServices | client/src/negotiation.rs:54-57 | the keys are exactly the advertised services' ids, each mapped to the products of a service with that id |
| Negotiation.CollectServicesUnique | client/src/negotiation.rs:54-57 | when ids are unique, each id maps to its own service's products |
| Negotiation.Negotiate | client/src/negotiation.rs:47-66 | succeeds exactly when the majors agree, keeping the URL and handle, with the services map collected from the broker's services (each id mapped to the products of a service with that id); otherwise `NotCompatible` names the client's and broker's versions |
| Negotiation.NegotiateKeepsServices | client/src/negotiation.rs:47-66 | with compatible versions and distinct service ids, the client knows every advertised service with exactly its products |
| Negotiation.NegotiationNew | client/src/negotiation.rs:21-37 | a transport failure is Hyper, an undecodable body is Serde, a decoded body is negotiated; `BadStatus` never arises |
| Negotiation.NegotiationIgnoresStatus | client/src/negotiation.rs:27-33 | the HTTP status does not matter: a 400 reply with a compatible body still negotiates |
| Negotiation.ClientHelloAnswer | broker/src/client/negotiation.rs:10-22 | the body is always the broker's negotiation; the status is 200 exactly when the majors agree, else 400 (same code in src/broker/client/negotiation.rs) |
| Negotiation.ClientHelloAnswerIgnoresMinor | broker/src/client/negotiation.rs:15-19 | the client's minor and patch versions do not change the answer |
| Negotiation.LevelFor | src/service/serve.rs:77-85 | Error exactly for 5xx and statuses outside 100-599, Warn exactly for 4xx, Info exactly for 1xx-3xx |
| Negotiation.Route | src/service/serve.rs:50-76 | only POST /monto/version is served: 200 or 400 by major agreement with the service's negotiation as body, an undecodable body 500, a transport error passed on; anything else is 404 |
| Negotiation.Call | src/service/serve.rs:50-89 | every routed response is returned unchanged and logged at the level of its status; transport errors are passed on |
| Negotiation.CallLevels | src/service/serve.rs:52-88 | the service's own answers are logged as 200 Info, 400 and 404 Warn, 500 Error |
| BrokerService.ServiceHello | broker/src/service.rs:57-66 | the hello carries protocol 3.0.0, the configured broker version and all configured service extensions |
| BrokerService.Merge | broker/src/service.rs:83-98 | the connection's protocol is the lower of 3.0.0 and the service's version; its extensions are exactly those both sides name |
| BrokerService.Connect | broker/src/service.rs:43-100 | a non-200 reply panics, a transport failure is Hyper, an undecodable body is Serde, and otherwise the merged connection; never `NotCompatible` or `BadStatus` |
| BrokerService.ConnectIgnoresMajor | broker/src/service.rs:83-98 | a service speaking another major version is still connected, and with an incompatible protocol exactly when its major is below 3 |
| BrokerService.RequestBody | broker/src/service.rs:116-119 | the request names the identifier and carries the supplied products unchanged |
| BrokerService.Request | broker/src/service.rs:103-151 | 200 is the product, 400 is NotExposed with the sent descriptor, 500 is the service's errors, an undecodable body is Serde, any other status panics, a transport failure is Hyper |
| Broker.FirstWithId | src/broker/mod.rs:68-75 | the first connected service whose negotiated id is the one asked for, or none exactly when no service has it |
| Broker.FindService | src/broker/mod.rs:68-75 | the loop with early return finds that first service |
| Broker.Version | src/broker/mod.rs:106-109 | the broker's configured version, the one `Broker.ClientNegotiationOf` and `Broker.ServiceNegotiationOf` carry |
| Broker.ClientNegotiationOf | src/broker/mod.rs:78-92 | protocol 3.0.0, the broker's version and client extensions, and exactly the negotiations of the connected services |
| Broker.ServiceNegotiationOf | src/broker/mod.rs:95-105 | the same record the broker sends as hello when connecting, carrying the broker's version |
| Broker.BrokerAcceptsMajor3 | src/broker/mod.rs:78-92 | the broker answers a client hello with 200 exactly when the client speaks major version 3 |
| Broker.ServiceAcceptsBrokerHello | src/broker/mod.rs:95-105 | a service answers the broker's hello with 200 exactly when its own major version is 3 |
| Broker.ReqProductsStatus | broker/src/client/req_products.rs:20-32 | 400 exactly for NoSuchService and NoSuchProduct, 502 exactly for a connect error, 500 exactly for service errors and unresolvable products |
| Broker.ReqProductsAnswer | broker/src/client/req_products.rs:17-35 | 200 with the product exactly on success, otherwise the error as body with its status |
| Registry.Service.constructor | service/src/lib.rs:58-65 | a new service has its configuration and no providers |
| Registry.Service.Negotiation | service/src/lib.rs:68-79 | protocol 3.0.0, the configured extensions and version, and exactly the registered descriptors as products |
| Registry.Service.AddProvider | service/src/lib.rs:84-87 | the provider is registered under its own descriptor, replacing any earlier one; other descriptors keep theirs; the count grows only for a new descriptor |
| Registry.ReplaceExample | service/src/lib.rs:81-87 | registering two providers for one descriptor keeps only the second, and the service advertises that descriptor once |
| Helpers.SwapRemove | service/src/helpers.rs:24 | one element shorter, the last element moved into the removed slot, every other slot unchanged |
| Helpers.SwapRemoveMultiset | service/src/helpers.rs:24 | only the removed element is lost: the multiset is otherwise unchanged |
| Helpers.FirstMatch | service/src/helpers.rs:20-22 | the index of the first product with the requested name, language and path, or none exactly when no product matches |
| Helpers.FirstMatchAt | service/src/helpers.rs:20-22 | a match preceded only by non-matches is the first match |
| Helpers.Position | service/src/helpers.rs:20-22 | the search loop returns the first match |
| Helpers.UnusedNotices | service/src/helpers.rs:37-42 | one `UnusedDependency` notice per product, naming that product, in order |
| Helpers.UnusedNoticesSwapRemove | service/src/helpers.rs:20-42 | the notices after a `swap_remove` are the notices with the same `swap_remove` applied |
| Helpers.ConsumedOrNoticed | service/src/helpers.rs:20-42 | the consumed product and the notices for the rest account for every supplied product exactly once |
| Helpers.ExtendUnused | service/src/helpers.rs:37-42 | the extend loop appends one notice per remaining product to the provider's notices |
| Helpers.OneToOneFn | service/src/helpers.rs:13-44 | without a match, one unmet dependency on the requested product and a notice per product; with one, `f`'s result on the first match and `f`'s notices followed by notices for the others |
| Helpers.SourceResult | service/src/helpers.rs:54-65 | a string source is handed to `f`, whose error becomes one `Other` error; any other value is "Invalid source product" |
| Helpers.SimpleFn | service/src/helpers.rs:48-66 | `one_to_one_fn` on the Source product, with no notices of its own |
| Helpers.LegacySourceResult | src/service/helpers.rs:22-26 | a string source is handed to `f`, whose error becomes an `Other` error; any other value is "bad source product" |
| Helpers.SingleError | src/service/helpers.rs:39-45 | success is kept and one error becomes a one-element error list |
| Helpers.LegacyOneToOneFn | src/service/helpers.rs:11-46 | a missing product is reported as an unmet Source dependency; otherwise the first match is consumed; a failure is always exactly one error, and every product left becomes a notice |
| Helpers.LegacySimpleFn | src/service/helpers.rs:50-57 | the older `one_to_one_fn` on the Source product (also the `simple_fn` of services/monto3-example-services/src/helpers.rs:8-44) |
| Helpers.LegacyUnmetNamesSource | src/service/helpers.rs:27-33 | asking the older helper for a missing non-Source product reports an unmet Source dependency, not the product asked for |
| Helpers.MapErrToOther | services/monto3-loctrans/src/util.rs:52-54 | success is kept and `f`'s error message becomes one `Other` error |
| Helpers.ProductAndSrc | services/monto3-loctrans/src/util.rs:9-69 | the requested product and then the source are taken by `swap_remove`; either missing is an unmet dependency without notices; a non-string source is an error without notices; otherwise `f`'s result with notices for the products left |
| Helpers.ProductAndSrcNeedsTwoSources | services/monto3-loctrans/src/util.rs:16-37 | when the requested product is the source itself, `f` is reached only if two different supplied products match |
| ProductCache.NormalParts | broker/src/resolve/cache.rs:67 | the components of a path: no empty or "." component, each one of the '/'-pieces |
| ProductCache.NormalPartsMembers | broker/src/resolve/cache.rs:67 | a piece is a component exactly when it is neither empty nor "." |
| ProductCache.NormalPartsAppend | broker/src/resolve/cache.rs:67 | components are taken piece by piece in order: those of a concatenation are those of each part, concatenated |
| ProductCache.NormalPartsKeeps | broker/src/resolve/cache.rs:67 | pieces that are all names are kept unchanged |
| ProductCache.PathOf | broker/src/resolve/cache.rs:67 | a path is absolute exactly when the string starts with '/', and no component is empty or contains '/' |
| ProductCache.PathOfPathString | broker/src/resolve/cache.rs:67 | a path of names written out with '/' reads back as the same path |
| ProductCache.PathOfDoubleSlash | broker/src/resolve/cache.rs:67 | doubling a '/' gives the same key |
| ProductCache.PathOfTrailingSlash | broker/src/resolve/cache.rs:67 | a trailing '/' on a non-empty string gives the same key |
| ProductCache.PathOfExamples | broker/src/resolve/cache.rs:67 | "a//b/" and "a/b" are the same key; "/a" and "a" are not |
| ProductCache.Pop | src/broker/resolve/watcher.rs:55 | `pop` succeeds exactly when there is a component, and then removes exactly the last one; otherwise nothing changes |
| ProductCache.LineageIsPrefixes | src/broker/resolve/watcher.rs:52-59 | what repeated `pop` visits is exactly the paths of the same kind whose components are a prefix; descendants and siblings are not among them |
| ProductCache.Lookup | broker/src/resolve/cache.rs:90-110 | a hit exactly when the path and descriptor are stored, returning the requested identifier with the stored value |
| ProductCache.LookupInserted | broker/src/resolve/cache.rs:57-77 | after an insertion, lookups at the same path components and descriptor find the new value, and all others are unchanged |
| ProductCache.LookupRemoved | broker/src/resolve/cache.rs:80-87 | after removing paths, lookups there miss and all others are unchanged |
| ProductCache.Cache.constructor | broker/src/resolve/cache.rs:28-39 | nothing cached, nothing watched, no watcher calls |
| ProductCache.Cache.Get | broker/src/resolve/cache.rs:90-110 | reads only; answers with `Lookup` on the current products |
| ProductCache.Cache.Add | broker/src/resolve/cache.rs:57-77 | the value replaces what was stored under its path and descriptor, everything else stays, a watch is requested only for a path not yet watched, and the watched paths remain exactly the stored ones |
| ProductCache.Cache.AddAbsolute | src/broker/resolve/cache.rs:39-55 | the same update, for the older copy that asserts the path is absolute |
| ProductCache.Cache.EvictByPath | broker/src/resolve/cache.rs:80-87 | the path's products go, an unwatch is requested only if it was watched, and every lookup elsewhere is unchanged |
| ProductCache.AddThenGet | broker/src/resolve/cache.rs:57-110 | adding a product and then asking for it returns exactly that product |
| ProductCache.EvictThenGet | broker/src/resolve/cache.rs:80-110 | after evicting a path, every lookup at that path misses |
| CacheWatcher.UnwatchCallsWatched | src/broker/resolve/watcher.rs:52-59 | eviction only unwatches paths that were watched and lie on the evicted lineage |
| CacheWatcher.RecursiveEvict | src/broker/resolve/watcher.rs:52-59 | exactly the path and its ancestors leave the cache, with one unwatch per watched one, longest first |
| CacheWatcher.RecursiveEvictThenGet | src/broker/resolve/watcher.rs:52-59 | afterwards lookups at the path or an ancestor miss, and lookups anywhere else (descendants and siblings included) are unchanged |
| CacheWatcher.EvictedPath | src/broker/resolve/watcher.rs:31-46 | every event evicts its path, a rename its source, an error only the path it carries, a rescan nothing |
| CacheWatcher.EvictedByIff | src/broker/resolve/watcher.rs:30-47 | a path is evicted by a batch of events exactly when some event evicts it or one of its descendants |
| CacheWatcher.Poll | src/broker/resolve/watcher.rs:27-49 | all pending events are handled in order, removing exactly the evicted lineages, and the future never completes |
| Resolve.ServiceFor | src/broker/resolve/mod.rs:26-30 | the id of the first connected service advertising the descriptor, or none exactly when no service does |
| Resolve.DropOneRemovesNamed | broker/src/resolve/mod.rs:51-61 | one notice removes at most one supplied product, and only one with the identifier it names |
| Resolve.DropNoticedRemovesNamed | broker/src/resolve/mod.rs:51-61 | the notices remove at most one product each, and a product no notice names is kept as often as it was supplied |
| Resolve.RemoveUnused | broker/src/resolve/mod.rs:51-61 | the loop over the notices removes what the notices name, one each, in order |
| Resolve.InsertedExtends | broker/src/resolve/mod.rs:109-117 | adding a source read from disk where the cache missed loses no cached product |
| Resolve.ResolveExtends | broker/src/resolve/mod.rs:25-75 | resolution never evicts or overwrites a cached product |
| Resolve.ResolveDepExtends | broker/src/resolve/mod.rs:78-122 | resolving a dependency never evicts or overwrites a cached product |
| Resolve.ResolveNextExtends | broker/src/resolve/mod.rs:125-148 | working through a service's errors never evicts or overwrites a cached product |
| Resolve.ResolveShortCuts | broker/src/resolve/mod.rs:35-73 | a cache hit answers without asking a service, and an unknown service id is NoSuchService; neither changes the cache |
| Resolve.ErrorsFromTheEnd | broker/src/resolve/mod.rs:132-144 | errors are handled from the last one back, so a trailing `Other` error ends resolution whatever precedes it |
| Resolve.UnadvertisedDependency | broker/src/resolve/mod.rs:98-121 | a dependency that is not cached, not advertised and not a readable source is unresolvable |
| Resolve.SourceReadIsCached | broker/src/resolve/mod.rs:100-117 | a source read from disk is returned as a JSON string and is then found in the cache |
| Resolve.FromCache | broker/src/resolve/mod.rs:153-156 | a cache hit carries the requested identifier |
| Resolve.ResolveSpec | broker/src/resolve/mod.rs:25-75 | the resolution specification; `Resolve.ResolveExtends` and `Resolve.ResolveShortCuts` state its properties |
| Resolve.ResolveDepSpec | broker/src/resolve/mod.rs:78-122 | the dependency-resolution specification; `Resolve.ResolveDepExtends`, `Resolve.UnadvertisedDependency` and `Resolve.SourceReadIsCached` state its properties |
| Resolve.ResolveNextSpec | broker/src/resolve/mod.rs:125-148 | the error-handling specification; `Resolve.ResolveNextExtends` and `Resolve.ErrorsFromTheEnd` state its properties |
| Resolve.Resolve | broker/src/resolve/mod.rs:25-75 | the cache's new contents and the result are those of the resolution specification |
| Resolve.ResolveDep | broker/src/resolve/mod.rs:78-122 | the cache's new contents and the result are those of the dependency-resolution specification |
| Resolve.ResolveNext | broker/src/resolve/mod.rs:125-148 | the cache's new contents and the result are those of the error-handling specification |
| Resolve.ReqProducts | broker/src/client/req_products.rs:12-36 | resolution starts with no supplied products; a product or a `BrokerGetError` is answered with the status table |
| LocTrans.LineStart | services/monto3-loctrans/src/main.rs:85-86 | the offset of a line start has exactly that many newlines before it and follows a newline; none exactly when the text has fewer newlines |
| LocTrans.LineStartUnique | services/monto3-loctrans/src/main.rs:85-86 | a line start is determined by the number of newlines before it |
| LocTrans.PositionOffset | services/monto3-loctrans/src/main.rs:69-94 | an offset never past the end; every error is one of the three messages |
| LocTrans.OnePosToByte | services/monto3-loctrans/src/main.rs:69-94 | the loop returns just past the character at (line, column), the end of the text when the position is there, or the error for line 0, a column past a newline, or a missing position |
| LocTrans.PositionExamples | services/monto3-loctrans/src/tests.rs:5-10 | line 0 is refused, (1, 0) is offset 1, and a column beyond a newline is a column error, also on the unit test's own text |
| ParenLang.Show | monto-parenlang/src/parenlang/mod.rs:13-21 | the display has two characters per node and is wrapped in parentheses |
| ParenLang.ShowOnlyParens | monto-parenlang/src/parenlang/mod.rs:13-21 | a display holds nothing but parentheses |
| ParenLang.ParseOne | monto-parenlang/src/parenlang/parse.rs:4-21 | a successful parse consumes at least two characters and stays within the input |
| ParenLang.ParseConsumesShow | monto-parenlang/src/parenlang/parse.rs:4-21 | a successful parse consumes exactly the display of the tree it returns |
| ParenLang.ParseShow | monto-parenlang/src/parenlang/parse.rs:4-21 | the display of any tree, wherever it sits in the input, parses back to that tree and ends just after it |
| ParenLang.One | monto-parenlang/src/parenlang/parse.rs:4-21 | the loop with the index advanced in place computes the parser's outcome, panic included |
| ParenLang.AstFromStr | monto-parenlang/src/parenlang/mod.rs:23-35 | panics exactly when `one` does; a success is a parse that used up the whole input |
| ParenLang.FromStr | monto-parenlang/src/parenlang/mod.rs:23-35 | threading the index through `one` gives the outcome of `from_str` |
| ParenLang.FromStrShow | monto-parenlang/src/parenlang/mod.rs:13-35 | every tree's display parses back to the tree |
| ParenLang.FromStrIsShow | monto-parenlang/src/parenlang/mod.rs:13-35 | whatever parses is the display of what it parses to |
| ParenLang.FromStrExamples | monto-parenlang/src/parenlang/parse.rs:23-34 | the empty input is an end at 0, ")" an unknown character, "()x" reports 'x' at 2, and the test's nested input parses to the expected tree |
| ParenLang.OpenParenPanics | monto-parenlang/src/parenlang/parse.rs:13-14 | an input ending inside an open node, such as "(", makes `one` index past the end |
| ParenLang.ParseOneChecked | monto-parenlang/src/parenlang/parse.rs:4-21 | the parser with the loop's index checked consumes at least two characters on success and stays within the input |
| ParenLang.CheckedAgrees | monto-parenlang/src/parenlang/parse.rs:4-21 | the checked parser agrees wherever the original does not panic, and reports an unexpected end where it does |
| ParenLang.CheckedFromStr | monto-parenlang/src/parenlang/mod.rs:23-45 | with the check, every display parses back, and "(" is an unexpected end at 1 |
| ParenLang.MaxDepth | monto-parenlang/src/depth.rs:53-58 | the largest child depth: no child is deeper, and some child reaches it |
| ParenLang.Depth | monto-parenlang/src/depth.rs:53-58 | a tree has depth 0 exactly when it is a leaf, and every child is shallower than its parent |
| ParenLang.DepthOfChildren | monto-parenlang/src/depth.rs:53-58 | a leaf has depth 0; every child is shallower than its parent, and the deepest is exactly one shallower |
| ParenLang.DepthBelowSize | monto-parenlang/src/depth.rs:53-58 | a tree's depth is less than its number of nodes |
| ParenLang.DepthNameParses | monto-parenlang/src/depth.rs:13-18 | the depth product's name displays and parses as the vendor identifier edu.umn.cs.melt.monto_rs.balanced_parens.depth |
| ParenLang.DepthDescriptor | monto-parenlang/src/depth.rs:13-18 | the descriptor's name is that identifier (so the `unwrap` succeeds) in the "balanced-parens" language |
| CBinding.Cstr | monto-rs-c/src/util.rs:6-15 | nothing exactly for null, otherwise the text |
| CBinding.CstrOr | monto-rs-c/src/util.rs:17-23 | the default for null, the text otherwise |
| CBinding.CstrParse | monto-rs-c/src/util.rs:25-31 | a value exactly when the string is not null and its text parses, and then the parsed value |
| CBinding.CstrParseOr | monto-rs-c/src/util.rs:33-39 | the parsed value, or the default for null or unparsable text |
| CBinding.DefaultsAgree | monto-rs-c/src/util.rs:17-39 | the defaulting helpers give their default exactly when the underlying lookup gives nothing or gives the default itself |
| CBinding.ConfigOf | monto-rs-c/src/client.rs:30-50 | none exactly for a null or unparsable identifier; else host defaulting to localhost, port 0 meaning 28888, absent name and vendor for null, and the version numbers copied |
| CBinding.ClientNew | monto-rs-c/src/client.rs:29-63 | a handle exactly when the configuration builds, the event loop starts and connecting succeeds, holding that configuration |
| CBinding.ConfigOfToC | monto-rs-c/src/client.rs:39-50 | a configuration with a non-zero port, a strict identifier and 32-bit numbers is rebuilt exactly from its own C record |
| CBinding.DefaultsApplied | monto-rs-c/src/client.rs:39-50 | all-null optional fields and port 0 give localhost:28888 with no name or vendor |
| CBinding.UndottedIdentifierRefused | monto-rs-c/src/client.rs:30-38 | an identifier without '.' never yields a client |
| AnonymousUnion.Inject | utils/src/haskellism/aunion.rs:31-50 | the injected value sits at the chosen position |
| AnonymousUnion.Widen | utils/src/haskellism/aunion.rs:52-57 | putting a position back keeps the value and shifts positions at or after it up by one |
| AnonymousUnion.Select | utils/src/haskellism/aunion.rs:35-57 | the value exactly when it sits at the position; otherwise the union without that position, which widens back to the input |
| AnonymousUnion.SelectInject | utils/src/haskellism/aunion.rs:30-57 | selecting where a value was injected gives it back |
| AnonymousUnion.InjectSelect | utils/src/haskellism/aunion.rs:30-57 | a union that selection accepts is the injection of what it returns |
| AnonymousUnion.SelectElsewhere | utils/src/haskellism/aunion.rs:52-57 | selecting elsewhere fails, keeping the value and shifting its position down past the selected one |
| AnonymousUnion.SelectWiden | utils/src/haskellism/aunion.rs:52-57 | widening at a position and selecting there gives the narrower union back |

## Left out

- Networking, futures and the event loop are not modelled. Every HTTP exchange, file read and connection attempt is a function parameter, so the properties hold for any answer.
- The JSON encoding is not modelled. Values are `JString` or an opaque `JOther`, and `to_value` of directory entries and error lists is a parameter.
- Logging is left out. Only the level `Broker::call` picks is modelled, as `Negotiation.LevelFor`.
- Configuration loading (TOML files and command-line flags) is left out. The negotiation modules receive the configuration as values.
- `u64` and `usize` numbers are unbounded in the model. The C binding's `u16` port and `c_uint` version numbers are bounded newtypes.
- `BTreeSet` and `BTreeMap` iteration order is left out. Sets of negotiations and extensions are Dafny sets.
- Negotiation.CollectServices: which of two services sharing an id wins the `collect` depends on that order, so it is left open.
- The `Display` texts of the error types are left out. Request errors reported as strings go through a `describe` parameter.
- `PathBuf` is modelled as a root flag plus its normal components. Prefixes such as Windows drive letters and ".." are left out.
- The filesystem watcher's errors are left out. They are only logged, so the cache's record of watcher calls does not note them.
- Resolve.Resolve: the broker's unbounded retry recursion is cut by a fuel argument. `OutOfFuel` marks where the broker would go on asking a service.
- Resolve.ReqProducts: the answer when resolution runs out of fuel or a service reply panics is not modelled.
- The provider registry keeps each provider's descriptor and identity. What a provider computes, `ServiceProvider::service`, is a parameter of the helpers.
- `DepthProvider::service` in monto-parenlang/src/depth.rs ends in `unimplemented!()`, so only its descriptor and the `depth` function are modelled.
- `monto_rs_Client_free` (freeing the handle) is left out, because memory release has no counterpart here.
- `to_string_lossy` is left out. A C string is given directly by its text.
- AnonymousUnion.Select: the position is an explicit index instead of a type-level natural, and every position holds the same value type. The empty union `AUnionNil`, which has no values, has no counterpart.
- `Cache::event` is left out: it is the polling of the watcher's channel. `CacheWatcher.Poll` takes the pending events as a sequence.
- The older `Broker::resolve` in src/broker/resolve/mod.rs is `unimplemented!()` and is left out. Its `service_for` and `from_cache` are modelled.

## Findings

| source | as written | input that shows it | evidently intended | confidence | as-written member | corrected member |
|---|---|---|---|---|---|---|
| monto-parenlang/src/parenlang/parse.rs:13-14 | the loop of `one` reads `c[*i]` without checking the index, so input that ends inside an open node indexes out of bounds and panics | "(" (and "(()") | `ParseError::UnexpectedEof(1)`, the error the type provides for running out of input | not executed; high | ParenLang.ParseOne (with ParenLang.OpenParenPanics) | ParenLang.ParseOneChecked (with ParenLang.CheckedAgrees and ParenLang.CheckedFromStr) |
| src/service/helpers.rs:28-32 | the older `one_to_one_fn` reports a missing product as an unmet dependency on `Source`, whatever product `pn` it was asked for | products [] with `pn` a vendor product name | an unmet dependency on `pn` itself, as the newer service/src/helpers.rs:27-33 reports | not executed; medium | Helpers.LegacyOneToOneFn (with Helpers.LegacyUnmetNamesSource) | Helpers.OneToOneFn |
