/**
 * The protocol vocabulary shared by clients, brokers and services:
 * identifiers, languages, product names, product records and the two kinds
 * of version (src/common/messages.rs).
 */
module Messages {
  import opened Wrappers
  import opened Text

  // ---------------------------------------------------------------------
  // The character classes and the identifier grammar
  // ---------------------------------------------------------------------

  /** `[a-zA-Z_]` */
  predicate IsIdentStart(c: char) {
    ('a' <= c <= 'z') || ('A' <= c <= 'Z') || c == '_'
  }

  /** `[a-zA-Z_0-9]` */
  predicate IsIdentChar(c: char) {
    IsIdentStart(c) || ('0' <= c <= '9')
  }

  /** A whole-string match of `[a-zA-Z_][a-zA-Z_0-9]*`. */
  predicate IsSegment(t: string) {
    |t| >= 1 && IsIdentStart(t[0]) && forall k :: 1 <= k < |t| ==> IsIdentChar(t[k])
  }

  predicate AllSegments(p: seq<string>) {
    forall k :: 0 <= k < |p| ==> IsSegment(p[k])
  }

  /**
   * A whole-string match of `[a-zA-Z_][a-zA-Z_0-9]*(\.[a-zA-Z_][a-zA-Z_0-9]*)+`.
   * A segment never contains '.', so a string is in this language exactly
   * when its '.'-separated pieces are at least two and are all segments.
   */
  predicate IsDottedIdentifier(t: string) {
    |Split(t, '.')| >= 2 && AllSegments(Split(t, '.'))
  }

  /** `Regex::is_match` with the pattern above: the search is unanchored,
   *  so it succeeds when SOME substring is in the language. */
  predicate IdentifierRegexFinds(s: string) {
    exists i, j | 0 <= i <= j <= |s| :: IsDottedIdentifier(s[i..j])
  }

  /** `Regex::is_match` with `[a-zA-Z_][a-zA-Z_0-9]*`, also unanchored. */
  predicate SegmentRegexFinds(s: string) {
    exists i, j | 0 <= i <= j <= |s| :: IsSegment(s[i..j])
  }

  // ---------------------------------------------------------------------
  // Identifier
  // ---------------------------------------------------------------------

  /** A reverse-hostname-style dotted identifier: the pieces before the last
   *  '.', and the piece after it. */
  datatype Identifier = Identifier(namespace: seq<string>, name: string)

  /** Every namespace piece followed by '.', then the name. */
  function NamespacePrefix(ns: seq<string>): string {
    if ns == [] then "" else ns[0] + "." + NamespacePrefix(ns[1..])
  }

  /** `Display for Identifier`: the namespace pieces and the name, joined
   *  with '.'. */
  function IdentifierString(id: Identifier): (r: string)
    ensures r == Join(id.namespace + [id.name], '.')
  {
    NamespacePrefixJoin(id.namespace, id.name);
    NamespacePrefix(id.namespace) + id.name
  }

  lemma {:induction false} NamespacePrefixJoin(ns: seq<string>, name: string)
    ensures NamespacePrefix(ns) + name == Join(ns + [name], '.')
  {
    if ns != [] {
      NamespacePrefixJoin(ns[1..], name);
      assert (ns + [name])[1..] == ns[1..] + [name];
    } else {
      assert ns + [name] == [name];
    }
  }

  /** The display of an identifier is its pieces joined with '.'. */
  lemma IdentifierStringIsJoin(id: Identifier)
    ensures IdentifierString(id) == Join(id.namespace + [id.name], '.')
  {
    NamespacePrefixJoin(id.namespace, id.name);
  }

  /** The identifier made of the '.'-pieces of a string: the last piece is
   *  the name (`parts.pop()`), the rest the namespace. */
  function FromPieces(s: string): Identifier {
    var parts := Split(s, '.');
    Identifier(parts[..|parts| - 1], parts[|parts| - 1])
  }

  /** The pieces of a string are displayed back as the string. */
  lemma FromPiecesDisplay(s: string)
    ensures IdentifierString(FromPieces(s)) == s
  {
    var parts := Split(s, '.');
    IdentifierStringIsJoin(FromPieces(s));
    assert parts[..|parts| - 1] + [parts[|parts| - 1]] == parts;
    JoinSplit(s, '.');
  }

  /** `FromStr for Identifier`: an unanchored regex test, then a split. */
  function IdentifierFromStr(s: string): (r: Result<Identifier, ()>)
    ensures r.Ok? ==> '.' in s && |r.value.namespace| >= 1
  {
    if IdentifierRegexFinds(s) then
      NoDotNoMatch(s);
      Ok(FromPieces(s))
    else Err(())
  }

  /** A string in the strict grammar contains a '.'. */
  lemma DottedHasDot(t: string)
    requires IsDottedIdentifier(t)
    ensures '.' in t
  {
    JoinSplit(t, '.');
    var p := Split(t, '.');
    assert Join(p, '.') == p[0] + ['.'] + Join(p[1..], '.');
    assert t[|p[0]|] == '.';
  }

  /** A string with no '.' never contains a match of the identifier regex. */
  lemma NoDotNoMatch(s: string)
    ensures '.' !in s ==> !IdentifierRegexFinds(s)
    ensures IdentifierRegexFinds(s) ==> |Split(s, '.')| >= 2
  {
    if IdentifierRegexFinds(s) {
      var i, j :| 0 <= i <= j <= |s| && IsDottedIdentifier(s[i..j]);
      DottedHasDot(s[i..j]);
      var k :| 0 <= k < j - i && s[i..j][k] == '.';
      assert s[i + k] == '.';
      DelimiterSplits(s, '.');
    }
  }

  /** Strings in the strict grammar are accepted. */
  lemma StrictIdentifierAccepted(s: string)
    requires IsDottedIdentifier(s)
    ensures IdentifierFromStr(s).Ok?
  {
    assert s[0..|s|] == s;
  }

  /** Whenever the parser accepts, the display of its result is the input. */
  lemma IdentifierFromStrDisplay(s: string)
    requires IdentifierFromStr(s).Ok?
    ensures IdentifierString(IdentifierFromStr(s).value) == s
  {
    FromPiecesDisplay(s);
  }

  /** An identifier made of segments, with a non-empty namespace, displays
   *  as a string the parser maps back to it. */
  lemma IdentifierDisplayFromStr(id: Identifier)
    requires |id.namespace| >= 1 && AllSegments(id.namespace) && IsSegment(id.name)
    ensures IsDottedIdentifier(IdentifierString(id))
    ensures IdentifierFromStr(IdentifierString(id)) == Ok(id)
  {
    var parts := id.namespace + [id.name];
    forall k | 0 <= k < |parts| ensures IsSegment(parts[k]) && '.' !in parts[k] {
      if k < |id.namespace| { assert parts[k] == id.namespace[k]; }
      SegmentHasNoDot(parts[k]);
    }
    IdentifierStringIsJoin(id);
    SplitJoin(parts, '.');
    StrictIdentifierAccepted(IdentifierString(id));
    assert parts[..|parts| - 1] == id.namespace;
  }

  lemma SegmentHasNoDot(t: string)
    requires IsSegment(t)
    ensures '.' !in t
  {
    forall k | 0 <= k < |t| ensures t[k] != '.' {
      if k > 0 { assert IsIdentChar(t[k]); }
    }
  }

  /** A string in the strict grammar starts with a segment followed by '.'
   *  and an identifier-start character. */
  lemma DottedHead(t: string)
    requires IsDottedIdentifier(t)
    ensures exists j :: 0 < j && j + 1 < |t| && IsSegment(t[..j]) && t[j] == '.' && IsIdentStart(t[j + 1])
  {
    var p := Split(t, '.');
    SplitHead(t, '.');
    var j := |p[0]|;
    var rest := t[j + 1..];
    SplitHead(rest, '.');
    assert Split(rest, '.')[0] == p[1];
    assert IsSegment(p[0]) && IsSegment(p[1]);
    assert rest[..|p[1]|] == p[1];
    assert t[j + 1] == rest[0] == p[1][0];
  }

  /** A segment, '.' and an identifier-start character form a string in the
   *  strict grammar. */
  lemma SegmentDotStart(a: string, c: char)
    requires IsSegment(a) && IsIdentStart(c)
    ensures IsDottedIdentifier(a + ['.'] + [c])
  {
    SegmentHasNoDot(a);
    SplitCons(a, [c], '.');
    SplitNoDelimiter([c], '.');
    assert Split(a + ['.'] + [c], '.') == [a, [c]];
    assert IsSegment([c]);
  }

  /** The place where a strict-grammar string starts with "seg.x". */
  predicate SegmentDotStartAt(s: string, i: int, j: int) {
    0 <= i < j && j + 1 < |s| && IsSegment(s[i..j]) && s[j] == '.' && IsIdentStart(s[j + 1])
  }

  lemma WitnessFromMatch(s: string, i: int, k: int)
    requires 0 <= i <= k <= |s| && IsDottedIdentifier(s[i..k])
    ensures exists j :: SegmentDotStartAt(s, i, j)
  {
    var t := s[i..k];
    DottedHead(t);
    var j :| 0 < j && j + 1 < |t| && IsSegment(t[..j]) && t[j] == '.' && IsIdentStart(t[j + 1]);
    assert s[i..i + j] == t[..j];
    assert t[j] == s[i + j] && t[j + 1] == s[i + j + 1];
    assert SegmentDotStartAt(s, i, i + j);
  }

  lemma MatchFromWitness(s: string, i: int, j: int)
    requires SegmentDotStartAt(s, i, j)
    ensures IsDottedIdentifier(s[i..j + 2])
  {
    SegmentDotStart(s[i..j], s[j + 1]);
    assert s[i..j + 2] == s[i..j] + ['.'] + [s[j + 1]];
  }

  /** The accepted set, stated without quantifying over substrings: some
   *  segment is directly followed by '.' and an identifier-start character. */
  lemma IdentifierRegexWitness(s: string)
    ensures IdentifierRegexFinds(s) <==> exists i, j :: SegmentDotStartAt(s, i, j)
  {
    if IdentifierRegexFinds(s) {
      var i, k :| 0 <= i <= k <= |s| && IsDottedIdentifier(s[i..k]);
      WitnessFromMatch(s, i, k);
    }
    if exists i, j :: SegmentDotStartAt(s, i, j) {
      var i, j :| SegmentDotStartAt(s, i, j);
      MatchFromWitness(s, i, j);
    }
  }

  /** "1a.b" is not in the strict grammar, yet the parser accepts it, because
   *  its substring "a.b" is. */
  lemma DigitLeadAccepted()
    ensures !IsDottedIdentifier("1a.b")
    ensures IdentifierFromStr("1a.b") == Ok(Identifier(["1a"], "b"))
  {
    var s := "1a.b";
    assert s == "1a" + ['.'] + "b";
    SplitCons("1a", "b", '.');
    SplitNoDelimiter("b", '.');
    assert Split(s, '.') == ["1a", "b"];
    assert !IsSegment(Split(s, '.')[0]);
    assert SegmentDotStartAt(s, 1, 2);
    IdentifierRegexWitness(s);
  }

  /** The unanchored segment regex finds a match exactly when some character
   *  is an identifier-start character. */
  lemma SegmentRegexFindsIff(s: string)
    ensures SegmentRegexFinds(s) <==> HasIdentStart(s)
  {
    if SegmentRegexFinds(s) {
      var i, j :| 0 <= i <= j <= |s| && IsSegment(s[i..j]);
      assert IsIdentStart(s[i]) by { assert s[i..j][0] == s[i]; }
    }
    if HasIdentStart(s) {
      var k :| 0 <= k < |s| && IsIdentStart(s[k]);
      assert IsSegment(s[k..k + 1]);
    }
  }

  /** The error `Deserialize for Identifier` reports: `invalid_value` with the input. */
  datatype DeserializeError = InvalidValue(input: string)

  /** `Deserialize for Identifier`: at least two '.'-pieces, each containing a
   *  match of the segment regex. */
  function IdentifierDeserialize(v: string): (r: Result<Identifier, DeserializeError>)
    ensures r.Err? ==> r.error == InvalidValue(v)
  {
    var parts := Split(v, '.');
    if |parts| < 2 || exists k | 0 <= k < |parts| :: !SegmentRegexFinds(parts[k]) then
      Err(InvalidValue(v))
    else
      Ok(FromPieces(v))
  }

  /** Some character is a letter or '_'. */
  predicate HasIdentStart(p: string) {
    exists m :: 0 <= m < |p| && IsIdentStart(p[m])
  }

  /** Accepted exactly when there are two or more pieces and each has a letter or '_'. */
  lemma IdentifierDeserializeAccepts(v: string)
    ensures IdentifierDeserialize(v).Ok? <==>
      |Split(v, '.')| >= 2 && forall k :: 0 <= k < |Split(v, '.')| ==> HasIdentStart(Split(v, '.')[k])
  {
    var parts := Split(v, '.');
    forall k | 0 <= k < |parts| ensures SegmentRegexFinds(parts[k]) <==> HasIdentStart(parts[k]) {
      SegmentRegexFindsIff(parts[k]);
    }
  }

  /** An empty piece (as in "a..b", ".a" or "a.b.") makes deserialisation fail. */
  lemma IdentifierDeserializeRejectsEmptyPiece(v: string)
    requires "" in Split(v, '.')
    ensures IdentifierDeserialize(v) == Err(InvalidValue(v))
  {
    var parts := Split(v, '.');
    var k :| 0 <= k < |parts| && parts[k] == "";
    IdentifierDeserializeAccepts(v);
  }

  /** Whenever deserialisation accepts, the display of its result is the input,
   *  and strings in the strict grammar are accepted. */
  lemma IdentifierDeserializeRoundTrip(v: string)
    ensures IdentifierDeserialize(v).Ok? ==> IdentifierString(IdentifierDeserialize(v).value) == v
    ensures IsDottedIdentifier(v) ==> IdentifierDeserialize(v) == Ok(FromPieces(v))
  {
    FromPiecesDisplay(v);
    if IsDottedIdentifier(v) {
      var parts := Split(v, '.');
      forall k | 0 <= k < |parts| ensures SegmentRegexFinds(parts[k]) {
        assert parts[k][0..|parts[k]|] == parts[k];
      }
    }
  }

  /** "a-.b" is accepted by deserialisation but not by `from_str`: no
   *  segment ends right before its '.'. */
  lemma HyphenOnlyDeserialized()
    ensures IdentifierDeserialize("a-.b").Ok? && IdentifierFromStr("a-.b").Err?
  {
    var s := "a-.b";
    assert s == "a-" + ['.'] + "b";
    SplitCons("a-", "b", '.');
    SplitNoDelimiter("b", '.');
    var parts := Split(s, '.');
    assert parts == ["a-", "b"];
    assert HasIdentStart(parts[0]) && HasIdentStart(parts[1]);
    IdentifierDeserializeAccepts(s);
    forall i, j | 0 <= i < j && j + 1 < |s| && s[j] == '.' ensures !IsSegment(s[i..j]) {
      assert j == 2;
      assert s[i..j][|s[i..j]| - 1] == '-';
    }
    IdentifierRegexWitness(s);
  }

  /** "a.b." is accepted by `from_str` but not by deserialisation: its last
   *  piece is empty. */
  lemma TrailingDotOnlyFromStr()
    ensures IdentifierFromStr("a.b.").Ok? && IdentifierDeserialize("a.b.").Err?
  {
    var t := "a.b.";
    assert t == "a" + ['.'] + ("b" + ['.'] + "");
    SplitCons("a", "b" + ['.'] + "", '.');
    SplitCons("b", "", '.');
    assert Split(t, '.') == ["a", "b", ""];
    IdentifierDeserializeRejectsEmptyPiece(t);
    assert SegmentDotStartAt(t, 0, 1);
    IdentifierRegexWitness(t);
  }

  // ---------------------------------------------------------------------
  // Language
  // ---------------------------------------------------------------------

  /** The language of a product. `NoLanguage` is the source's `Language::None`. */
  datatype Language = Json | Text | NoLanguage | Other(name: string)

  /** The three names with a dedicated variant. */
  predicate IsReservedLanguageName(s: string) {
    s == "json" || s == "text" || s == "none"
  }

  /** `Language::name`, also its Display and serialisation. */
  function LanguageName(l: Language): string {
    match l
    case Json => "json"
    case Text => "text"
    case NoLanguage => "none"
    case Other(name) => name
  }

  /** `From<String> for Language`, also its deserialisation. */
  function LanguageFrom(s: string): (r: Language)
    ensures LanguageName(r) == s
    ensures r.Other? ==> !IsReservedLanguageName(s)
  {
    match s
    case "json" => Json
    case "text" => Text
    case "none" => NoLanguage
    case _ => Other(s)
  }

  /** Every language except an `Other` spelled like a built-in one survives
   *  naming and converting back. */
  lemma LanguageNameRoundTrip(l: Language)
    ensures !(l.Other? && IsReservedLanguageName(l.name)) <==> LanguageFrom(LanguageName(l)) == l
  {
  }

  /** `Other("json")` does not survive a round trip: it comes back as `Json`. */
  lemma ReservedOtherLanguageCollapses()
    ensures LanguageFrom(LanguageName(Other("json"))) == Json
  {
  }

  // ---------------------------------------------------------------------
  // Product names and product records
  // ---------------------------------------------------------------------

  datatype ProductName = Directory | Errors | Highlighting | Source | OtherProduct(id: Identifier)

  /** `Display for ProductName`. A built-in name holds no '.', so it never
   *  reads as a vendor identifier. */
  function ProductNameString(p: ProductName): (r: string)
    ensures p.OtherProduct? ==> r == IdentifierString(p.id)
    ensures !p.OtherProduct? ==> '.' !in r && |r| > 0
  {
    match p
    case Directory => "directory"
    case Errors => "errors"
    case Highlighting => "highlighting"
    case Source => "source"
    case OtherProduct(id) => IdentifierString(id)
  }

  /** `FromStr for ProductName`: the four built-in names, else an identifier. */
  function ProductNameFromStr(s: string): (r: Result<ProductName, ()>)
    ensures r.Ok? ==> ProductNameString(r.value) == s
    ensures '.' !in s && s !in {"directory", "errors", "highlighting", "source"} ==> r.Err?
  {
    match s
    case "directory" => Ok(Directory)
    case "errors" => Ok(Errors)
    case "highlighting" => Ok(Highlighting)
    case "source" => Ok(Source)
    case _ =>
      match IdentifierFromStr(s)
      case Ok(id) =>
        IdentifierFromStrDisplay(s);
        Ok(OtherProduct(id))
      case Err(e) => Err(e)
  }

  /** Parsing then displaying gives the input back whenever parsing succeeds. */
  lemma ProductNameRoundTrip(s: string)
    ensures ProductNameFromStr(s).Ok? ==> ProductNameString(ProductNameFromStr(s).value) == s
  {
    if ProductNameFromStr(s).Ok? && !(s in {"directory", "errors", "highlighting", "source"}) {
      IdentifierFromStrDisplay(s);
    }
  }

  /** Displaying then parsing gives the name back, for the built-ins and for
   *  vendor names whose identifier is in the strict grammar. */
  lemma ProductNameDisplayRoundTrip(p: ProductName)
    requires p.OtherProduct? ==>
      |p.id.namespace| >= 1 && AllSegments(p.id.namespace) && IsSegment(p.id.name)
    ensures ProductNameFromStr(ProductNameString(p)) == Ok(p)
  {
    if p.OtherProduct? {
      IdentifierDisplayFromStr(p.id);
      DottedProductName(IdentifierString(p.id));
    }
  }

  /** A string with a '.' is no built-in name, so it parses as an identifier. */
  lemma DottedProductName(s: string)
    requires '.' in s && IdentifierFromStr(s).Ok?
    ensures ProductNameFromStr(s) == Ok(OtherProduct(IdentifierFromStr(s).value))
  {
    assert '.' !in "directory" && '.' !in "errors" && '.' !in "highlighting" && '.' !in "source";
  }

  /** A JSON value. Only the string case matters to the code modelled here;
   *  `JOther` stands for any other JSON value, whose content is not inspected. */
  datatype Json = JString(text: string) | JOther(id: nat)

  datatype ProductDescriptor = ProductDescriptor(name: ProductName, language: Language)

  datatype ProductIdentifier = ProductIdentifier(name: ProductName, language: Language, path: string)

  datatype Product = Product(name: ProductName, language: Language, path: string, value: Json)

  /** `From<&Product> for ProductIdentifier`. */
  function IdentifierOf(p: Product): (r: ProductIdentifier)
    ensures r.name == p.name && r.language == p.language && r.path == p.path
  {
    ProductIdentifier(p.name, p.language, p.path)
  }

  /** `From<ProductIdentifier> for ProductDescriptor`. */
  function DescriptorOf(pi: ProductIdentifier): (r: ProductDescriptor)
    ensures r.name == pi.name && r.language == pi.language
  {
    ProductDescriptor(pi.name, pi.language)
  }

  // ---------------------------------------------------------------------
  // Versions
  // ---------------------------------------------------------------------

  /** The `u64` fields are only compared and printed, never computed with,
   *  so they are unbounded here. */
  datatype ProtocolVersion = ProtocolVersion(major: nat, minor: nat, patch: nat)

  datatype Ordering = Less | Equal | Greater

  function Reverse(o: Ordering): Ordering {
    match o
    case Less => Greater
    case Equal => Equal
    case Greater => Less
  }

  function CompareNat(a: nat, b: nat): Ordering {
    if a < b then Less else if a == b then Equal else Greater
  }

  /** `Ord for ProtocolVersion`: the semver order of versions with no
   *  pre-release and no build part. */
  function Compare(a: ProtocolVersion, b: ProtocolVersion): (r: Ordering)
    ensures r == Equal <==> a == b
    ensures r == Less <==>
      a.major < b.major || (a.major == b.major && (a.minor < b.minor || (a.minor == b.minor && a.patch < b.patch)))
  {
    if CompareNat(a.major, b.major) != Equal then CompareNat(a.major, b.major)
    else if CompareNat(a.minor, b.minor) != Equal then CompareNat(a.minor, b.minor)
    else CompareNat(a.patch, b.patch)
  }

  /** Swapping the arguments reverses the answer. */
  lemma CompareAntisymmetric(a: ProtocolVersion, b: ProtocolVersion)
    ensures Compare(b, a) == Reverse(Compare(a, b))
  {
  }

  /** `a <= b` under that order. */
  predicate LessOrEqual(a: ProtocolVersion, b: ProtocolVersion) {
    Compare(a, b) != Greater
  }

  /** The order is a total order. */
  lemma CompareTotalOrder(a: ProtocolVersion, b: ProtocolVersion, c: ProtocolVersion)
    ensures LessOrEqual(a, b) || LessOrEqual(b, a)
    ensures LessOrEqual(a, b) && LessOrEqual(b, a) ==> a == b
    ensures LessOrEqual(a, b) && LessOrEqual(b, c) ==> LessOrEqual(a, c)
  {
  }

  /** `std::cmp::min`: the first argument unless the second is strictly smaller. */
  function MinVersion(a: ProtocolVersion, b: ProtocolVersion): (r: ProtocolVersion)
    ensures LessOrEqual(r, a) && LessOrEqual(r, b)
    ensures r == a || r == b
  {
    if Compare(a, b) == Greater then b else a
  }

  /** `ProtocolVersion::compatible`: the major versions agree. */
  predicate Compatible(a: ProtocolVersion, b: ProtocolVersion) {
    a.major == b.major
  }

  /** Compatibility is an equivalence that looks only at the major version. */
  lemma CompatibleIsEquivalence(a: ProtocolVersion, b: ProtocolVersion, c: ProtocolVersion)
    ensures Compatible(a, a)
    ensures Compatible(a, b) ==> Compatible(b, a)
    ensures Compatible(a, b) && Compatible(b, c) ==> Compatible(a, c)
    ensures Compatible(a, b) == Compatible(ProtocolVersion(a.major, 0, 0), b)
  {
  }

  /** "major.minor.patch", each number in decimal. */
  function VersionTriple(major: nat, minor: nat, patch: nat): string {
    NatToString(major) + "." + NatToString(minor) + "." + NatToString(patch)
  }

  /** Distinct triples print differently. */
  lemma VersionTripleInjective(a: ProtocolVersion, b: ProtocolVersion)
    requires VersionTriple(a.major, a.minor, a.patch) == VersionTriple(b.major, b.minor, b.patch)
    ensures a == b
  {
    VersionTripleSplit(a.major, a.minor, a.patch);
    VersionTripleSplit(b.major, b.minor, b.patch);
    NatToStringInjective(a.major, b.major);
    NatToStringInjective(a.minor, b.minor);
    NatToStringInjective(a.patch, b.patch);
  }

  lemma DigitsHaveNoDot(n: nat)
    ensures '.' !in NatToString(n)
  {
    var s := NatToString(n);
    forall k | 0 <= k < |s| ensures s[k] != '.' {
      assert '0' <= s[k] <= '9';
    }
  }

  lemma VersionTripleSplit(major: nat, minor: nat, patch: nat)
    ensures Split(VersionTriple(major, minor, patch), '.') ==
            [NatToString(major), NatToString(minor), NatToString(patch)]
  {
    var a, b, c := NatToString(major), NatToString(minor), NatToString(patch);
    DigitsHaveNoDot(major);
    DigitsHaveNoDot(minor);
    DigitsHaveNoDot(patch);
    assert VersionTriple(major, minor, patch) == a + ['.'] + (b + ['.'] + c);
    SplitCons(a, b + ['.'] + c, '.');
    SplitCons(b, c, '.');
    SplitNoDelimiter(c, '.');
  }

  /** `Display for ProtocolVersion`. */
  function ProtocolVersionString(v: ProtocolVersion): (r: string)
    ensures Split(r, '.') == [NatToString(v.major), NatToString(v.minor), NatToString(v.patch)]
  {
    VersionTripleSplit(v.major, v.minor, v.patch);
    VersionTriple(v.major, v.minor, v.patch)
  }

  /** The version and implementation of a client, broker or service. */
  datatype SoftwareVersion = SoftwareVersion(
    id: Identifier, name: Option<string>, vendor: Option<string>,
    major: nat, minor: nat, patch: nat)

  /** The middle part of `Display for SoftwareVersion`: the name in
   *  parentheses, with "by" and the vendor inside them when both are
   *  known, or "by" and the vendor alone; nothing when neither is. */
  function NameVendorPart(name: Option<string>, vendor: Option<string>): (r: string)
    ensures name.Some? && vendor.Some? ==> r == " (" + name.value + " by " + vendor.value + ")"
    ensures name.Some? && vendor.None? ==> r == " (" + name.value + ")"
    ensures name.None? && vendor.Some? ==> r == " by " + vendor.value
    ensures r == "" <==> name.None? && vendor.None?
  {
    match (name, vendor)
    case (Some(n), Some(v)) => " (" + n + " by " + v + ")"
    case (Some(n), None) => " (" + n + ")"
    case (None, Some(v)) => " by " + v
    case (None, None) => ""
  }

  /** `Display for SoftwareVersion`: the identifier, the name and vendor
   *  part, then a space and the version triple. */
  function SoftwareVersionString(v: SoftwareVersion): (r: string)
    ensures |r| > |IdentifierString(v.id)|
    ensures r[..|IdentifierString(v.id)|] == IdentifierString(v.id)
    ensures var t := " " + VersionTriple(v.major, v.minor, v.patch);
            |r| >= |t| && r[|r| - |t|..] == t
    ensures (v.name.None? && v.vendor.None?) <==>
            r == IdentifierString(v.id) + " " + VersionTriple(v.major, v.minor, v.patch)
    ensures r == IdentifierString(v.id) + NameVendorPart(v.name, v.vendor) + " " +
                 VersionTriple(v.major, v.minor, v.patch)
  {
    var m := NameVendorPart(v.name, v.vendor);
    var t := " " + VersionTriple(v.major, v.minor, v.patch);
    assert (v.name.None? && v.vendor.None?) <==> m == "" by {
      if v.name.Some? || v.vendor.Some? { assert |m| > 0; }
    }
    var r := IdentifierString(v.id) + m + t;
    assert r[|r| - |t|..] == t;
    assert r[..|IdentifierString(v.id)|] == IdentifierString(v.id);
    r
  }

  /** Two versions of the same implementation display alike exactly when
   *  their version numbers agree. */
  lemma SoftwareVersionStringInjective(a: SoftwareVersion, b: SoftwareVersion)
    requires a.id == b.id && a.name == b.name && a.vendor == b.vendor
    ensures SoftwareVersionString(a) == SoftwareVersionString(b) <==>
            (a.major, a.minor, a.patch) == (b.major, b.minor, b.patch)
  {
    if SoftwareVersionString(a) == SoftwareVersionString(b) {
      var p := IdentifierString(a.id) + NameVendorPart(a.name, a.vendor) + " ";
      var ta, tb := VersionTriple(a.major, a.minor, a.patch), VersionTriple(b.major, b.minor, b.patch);
      assert SoftwareVersionString(a) == p + ta;
      assert SoftwareVersionString(b) == p + tb;
      assert ta == (p + ta)[|p|..];
      assert tb == (p + tb)[|p|..];
      VersionTripleInjective(ProtocolVersion(a.major, a.minor, a.patch), ProtocolVersion(b.major, b.minor, b.patch));
    }
  }
}
