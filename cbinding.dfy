/**
 * The C binding's client constructor (monto-rs-c): reading nullable C
 * strings, and turning the C-side configuration record into the client
 * configuration before connecting.
 */
module CBinding {
  import opened Wrappers
  import opened Messages

  /** A `*const c_char`: null, or a NUL-terminated string, given here by the
   *  text `to_string_lossy` makes of it. */
  datatype CPtr = Null | CString(text: string)

  newtype U16 = x: int | 0 <= x < 0x1_0000
  newtype U32 = x: int | 0 <= x < 0x1_0000_0000

  /** `cstr`: nothing for null, the text otherwise. */
  function Cstr(ptr: CPtr): (r: Option<string>)
    ensures r.None? <==> ptr.Null?
    ensures ptr.CString? ==> r == Some(ptr.text)
  {
    match ptr
    case Null => None
    case CString(t) => Some(t)
  }

  /** `cstr_or`: the text, or the default for null. */
  function CstrOr(ptr: CPtr, default: string): (r: string)
    ensures ptr.Null? ==> r == default
    ensures ptr.CString? ==> r == ptr.text
  {
    match Cstr(ptr)
    case Some(s) => s
    case None => default
  }

  /** `cstr_parse`: the text parsed with the target type's `FromStr`;
   *  nothing for null or for text the parser refuses. */
  function CstrParse<T, E>(ptr: CPtr, parse: string -> Result<T, E>): (r: Option<T>)
    ensures r.Some? <==> ptr.CString? && parse(ptr.text).Ok?
    ensures r.Some? ==> r.value == parse(ptr.text).value
  {
    match Cstr(ptr)
    case Some(s) => (match parse(s) case Ok(v) => Some(v) case Err(_) => None)
    case None => None
  }

  /** `cstr_parse_or`: the parsed value, or the default when there is none. */
  function CstrParseOr<T, E>(ptr: CPtr, default: T, parse: string -> Result<T, E>): (r: T)
    ensures ptr.CString? && parse(ptr.text).Ok? ==> r == parse(ptr.text).value
    ensures ptr.Null? || parse(ptr.text).Err? ==> r == default
  {
    match CstrParse(ptr, parse)
    case Some(v) => v
    case None => default
  }

  /** `cstr_or` gives its default exactly for null or for a text equal to
   *  it; `cstr_parse_or` gives its default exactly when `cstr_parse` gives
   *  nothing, or when the parsed value equals the default. */
  lemma DefaultsAgree<T, E>(ptr: CPtr, text: string, default: T, parse: string -> Result<T, E>)
    ensures CstrOr(ptr, text) == text <==> ptr.Null? || ptr.text == text
    ensures CstrParseOr(ptr, default, parse) == default <==>
      CstrParse(ptr, parse).None? || CstrParse(ptr, parse).value == default
  {
  }

  /** The C-side `ClientConfig` record. */
  datatype ClientConfig = ClientConfig(
    hostname: CPtr, port: U16, identifier: CPtr, name: CPtr, vendor: CPtr,
    major: U32, minor: U32, patch: U32)

  /** The client's `Config`. */
  datatype Config = Config(host: string, port: U16, version: SoftwareVersion)

  const DEFAULT_HOST: string := "localhost"
  const DEFAULT_PORT: U16 := 28888

  /** The configuration `monto_rs_Client_new` builds, or nothing when the
   *  identifier is null or not an identifier. The host defaults to
   *  "localhost", port 0 means 28888, a null name or vendor is absent, and
   *  the version numbers are copied. */
  function ConfigOf(cc: ClientConfig): (r: Option<Config>)
    ensures r.None? <==> cc.identifier.Null? || IdentifierFromStr(cc.identifier.text).Err?
    ensures r.Some? ==>
      r.value.version.id == IdentifierFromStr(cc.identifier.text).value &&
      r.value.host == (if cc.hostname.Null? then DEFAULT_HOST else cc.hostname.text) &&
      r.value.port == (if cc.port == 0 then DEFAULT_PORT else cc.port) &&
      r.value.version.name == Cstr(cc.name) && r.value.version.vendor == Cstr(cc.vendor) &&
      r.value.version.major == cc.major as nat && r.value.version.minor == cc.minor as nat &&
      r.value.version.patch == cc.patch as nat
  {
    match CstrParse(cc.identifier, IdentifierFromStr)
    case None => None
    case Some(id) =>
      Some(Config(
        CstrOr(cc.hostname, DEFAULT_HOST),
        if cc.port == 0 then DEFAULT_PORT else cc.port,
        SoftwareVersion(id, Cstr(cc.name), Cstr(cc.vendor), cc.major as nat, cc.minor as nat, cc.patch as nat)))
  }

  /** What `monto_rs_Client_new` returns: a null handle, or a handle owning
   *  the event loop and the connected client. */
  datatype Handle = NullHandle | ClientHandle(config: Config)

  /** `monto_rs_Client_new`: whether the event loop could be created and
   *  whether connecting with a configuration succeeds are given, since
   *  both depend on the system and the network. */
  function ClientNew(cc: ClientConfig, coreCreated: bool, connects: Config -> bool): (r: Handle)
    ensures r.ClientHandle? <==> ConfigOf(cc).Some? && coreCreated && connects(ConfigOf(cc).value)
    ensures r.ClientHandle? ==> r.config == ConfigOf(cc).value
  {
    match ConfigOf(cc)
    case None => NullHandle
    case Some(config) => if coreCreated && connects(config) then ClientHandle(config) else NullHandle
  }

  /** The C record that spells out a client configuration. */
  function ToC(c: Config): ClientConfig
    requires c.version.major < 0x1_0000_0000 && c.version.minor < 0x1_0000_0000 && c.version.patch < 0x1_0000_0000
  {
    ClientConfig(
      CString(c.host), c.port, CString(IdentifierString(c.version.id)),
      match c.version.name case Some(n) => CString(n) case None => Null,
      match c.version.vendor case Some(v) => CString(v) case None => Null,
      c.version.major as U32, c.version.minor as U32, c.version.patch as U32)
  }

  /** Every configuration with a non-zero port, a strict identifier and
   *  32-bit version numbers is the one built from its own C record, so the
   *  normalisation loses nothing it does not default. */
  lemma ConfigOfToC(c: Config)
    requires c.version.major < 0x1_0000_0000 && c.version.minor < 0x1_0000_0000 && c.version.patch < 0x1_0000_0000
    requires c.port != 0
    requires |c.version.id.namespace| >= 1 && AllSegments(c.version.id.namespace) && IsSegment(c.version.id.name)
    ensures ConfigOf(ToC(c)) == Some(c)
  {
    IdentifierDisplayFromStr(c.version.id);
  }

  /** A record with every string null but the identifier, and port 0,
   *  connects to localhost on port 28888 with no name or vendor. */
  lemma DefaultsApplied(cc: ClientConfig)
    requires cc.hostname.Null? && cc.port == 0 && cc.name.Null? && cc.vendor.Null?
    requires cc.identifier.CString? && IdentifierFromStr(cc.identifier.text).Ok?
    ensures ConfigOf(cc) == Some(Config("localhost", 28888,
      SoftwareVersion(IdentifierFromStr(cc.identifier.text).value, None, None,
        cc.major as nat, cc.minor as nat, cc.patch as nat)))
  {
  }

  /** An identifier without a '.' never makes a client. */
  lemma UndottedIdentifierRefused(cc: ClientConfig, coreCreated: bool, connects: Config -> bool)
    requires cc.identifier.CString? && '.' !in cc.identifier.text
    ensures ClientNew(cc, coreCreated, connects) == NullHandle
  {
  }
}
