/**
 * The built-in product payloads (protocol/src/products.rs and the older
 * src/common/products.rs): the error-severity codec, directory entry
 * classification and the conversions of payloads into `Product` records.
 */
module Products {
  import opened Wrappers
  import Messages

  // ---------------------------------------------------------------------
  // ErrorSeverity
  // ---------------------------------------------------------------------

  datatype ErrorSeverity = Error | Warning | Info

  /** `Serialize for ErrorSeverity`: the lower-case variant name. */
  function SeverityToString(sev: ErrorSeverity): (r: string)
    ensures SeverityFromString(r) == Ok(sev)
  {
    match sev
    case Error => "error"
    case Warning => "warning"
    case Info => "info"
  }

  /** `Deserialize for ErrorSeverity`: exactly the three names; anything
   *  else is an `invalid_value` error carrying the input. */
  function SeverityFromString(s: string): (r: Result<ErrorSeverity, Messages.DeserializeError>)
    ensures r.Ok? <==> s in {"error", "warning", "info"}
    ensures r.Err? ==> r.error == Messages.InvalidValue(s)
  {
    match s
    case "error" => Ok(Error)
    case "warning" => Ok(Warning)
    case "info" => Ok(Info)
    case _ => Err(Messages.InvalidValue(s))
  }

  /** Deserialisation inverts serialisation, and distinct severities
   *  serialise differently. */
  lemma SeverityCodecInverse(s: string, a: ErrorSeverity, b: ErrorSeverity)
    ensures SeverityFromString(s).Ok? ==> SeverityToString(SeverityFromString(s).value) == s
    ensures SeverityToString(a) == SeverityToString(b) ==> a == b
  {
  }

  /** The JSON text of a string value: the string between double quotes
   *  (sufficient for the escape-free names used here). */
  function JsonStringText(s: string): string {
    "\"" + s + "\""
  }

  /** The serialisation test: each severity's JSON text. */
  lemma SeveritySerializeTest()
    ensures JsonStringText(SeverityToString(Error)) == "\"error\""
    ensures JsonStringText(SeverityToString(Warning)) == "\"warning\""
    ensures JsonStringText(SeverityToString(Info)) == "\"info\""
  {
  }

  // ---------------------------------------------------------------------
  // DirectoryEntryType
  // ---------------------------------------------------------------------

  /** The three queries `std::fs::FileType` answers. */
  datatype FileType = FileType(isFile: bool, isDir: bool, isSymlink: bool)

  datatype DirectoryEntryType = File | Directory | Symlink | Other

  /** `From<FileType> for DirectoryEntryType`, identical in both crates:
   *  file before directory before symlink, then Other. */
  function EntryTypeOf(t: FileType): (r: DirectoryEntryType)
    ensures r == File <==> t.isFile
    ensures r == Directory <==> !t.isFile && t.isDir
    ensures r == Symlink <==> !t.isFile && !t.isDir && t.isSymlink
    ensures r == Other <==> !t.isFile && !t.isDir && !t.isSymlink
  {
    if t.isFile then File
    else if t.isDir then Directory
    else if t.isSymlink then Symlink
    else Other
  }

  /** When the file type answers yes to at most one query, as a real one
   *  does, the entry type names that query. */
  lemma EntryTypeOfExclusive(t: FileType)
    requires (t.isFile ==> !t.isDir && !t.isSymlink) && (t.isDir ==> !t.isSymlink)
    ensures t.isFile <==> EntryTypeOf(t) == File
    ensures t.isDir <==> EntryTypeOf(t) == Directory
    ensures t.isSymlink <==> EntryTypeOf(t) == Symlink
  {
  }

  // ---------------------------------------------------------------------
  // Conversions into products
  // ---------------------------------------------------------------------

  datatype DirectoryEntry = DirectoryEntry(name: string, absolutePath: string, fileType: DirectoryEntryType)

  datatype Directory = DirectoryListing(path: string, entries: seq<DirectoryEntry>)

  datatype Error = ErrorRecord(message: string, startByte: nat, endByte: nat, severity: ErrorSeverity)

  datatype Errors = Errors(errors: seq<Error>, language: Messages.Language, path: string)

  datatype Source = Source(contents: string, language: Messages.Language, path: string)

  /** `From<Directory> for Product`. `entriesToValue` is serde's `to_value`
   *  on the entry list. */
  function DirectoryProduct(d: Directory, entriesToValue: seq<DirectoryEntry> -> Messages.Json): (r: Messages.Product)
    ensures r.name == Messages.Directory && r.language == Messages.NoLanguage
    ensures r.path == d.path && r.value == entriesToValue(d.entries)
  {
    Messages.Product(Messages.Directory, Messages.NoLanguage, d.path, entriesToValue(d.entries))
  }

  /** `From<Errors> for Product`. `errorsToValue` is serde's `to_value` on
   *  the error list. */
  function ErrorsProduct(e: Errors, errorsToValue: seq<Error> -> Messages.Json): (r: Messages.Product)
    ensures r.name == Messages.Errors && r.language == e.language
    ensures r.path == e.path && r.value == errorsToValue(e.errors)
  {
    Messages.Product(Messages.Errors, e.language, e.path, errorsToValue(e.errors))
  }

  /** The text of a product whose value is a JSON string. */
  function SourceText(p: Messages.Product): Option<string> {
    if p.value.JString? then Some(p.value.text) else None
  }

  /** `From<Source> for Product`: the contents become a JSON string, so the
   *  source can be read back from the product. */
  function SourceProduct(s: Source): (r: Messages.Product)
    ensures r.name == Messages.Source && r.language == s.language && r.path == s.path
    ensures SourceText(r) == Some(s.contents)
  {
    Messages.Product(Messages.Source, s.language, s.path, Messages.JString(s.contents))
  }

  /** `ProductValue::name` for the older `Directory`: the name that prints
   *  and parses as "directory". */
  function DirectoryName(): (r: Messages.ProductName)
    ensures Messages.ProductNameString(r) == "directory"
    ensures Messages.ProductNameFromStr("directory") == Ok(r)
  {
    Messages.Directory
  }

  /** `ProductValue::name` for the older `Source`: the name that prints and
   *  parses as "source". */
  function SourceName(): (r: Messages.ProductName)
    ensures Messages.ProductNameString(r) == "source"
    ensures Messages.ProductNameFromStr("source") == Ok(r)
  {
    Messages.Source
  }
}
