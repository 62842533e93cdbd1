/**
 * The first generation of the protocol types (src/types/common.rs): a
 * string-wrapping identifier and namespaced name with regex validity checks,
 * and the protocol version record.
 */
module LegacyTypes {
  import opened Text
  import opened Messages

  // ---------------------------------------------------------------------
  // Identifier::is_valid
  // ---------------------------------------------------------------------

  /** The older identifier: any string, checked on demand. */
  datatype LegacyIdentifier = LegacyIdentifier(text: string)

  /** A whole-string match of `[a-zA-Z_][a-zA-Z_0-9]*(\.[a-zA-Z_][a-zA-Z_0-9]*)*`:
   *  one or more '.'-separated segments. */
  predicate InIdentifierLanguage(t: string) {
    AllSegments(Split(t, '.'))
  }

  /** `Regex::is_match` with that pattern: some substring is in the language. */
  predicate IdentifierPatternFinds(s: string) {
    exists i, j | 0 <= i <= j <= |s| :: InIdentifierLanguage(s[i..j])
  }

  /** `Identifier::is_valid`. The search is unanchored and the repetition may
   *  be empty, so one letter or '_' anywhere is already a match. */
  predicate IdentifierIsValid(id: LegacyIdentifier) {
    IdentifierPatternFinds(id.text)
  }

  /** Validity holds exactly when the text has an ASCII letter or '_'. */
  lemma IdentifierIsValidIff(id: LegacyIdentifier)
    ensures IdentifierIsValid(id) <==> HasIdentStart(id.text)
  {
    var s := id.text;
    if IdentifierPatternFinds(s) {
      var i, j :| 0 <= i <= j <= |s| && InIdentifierLanguage(s[i..j]);
      var t := s[i..j];
      SplitHead(t, '.');
      var p0 := Split(t, '.')[0];
      assert IsSegment(p0);
      assert t[0] == p0[0] && t[0] == s[i];
    }
    if HasIdentStart(s) {
      var k :| 0 <= k < |s| && IsIdentStart(s[k]);
      var t := s[k..k + 1];
      SplitNoDelimiter(t, '.');
      assert InIdentifierLanguage(t);
    }
  }

  /** "a" is valid; "", "42" and "1.2-3" are not. */
  lemma IdentifierIsValidExamples()
    ensures IdentifierIsValid(LegacyIdentifier("a"))
    ensures !IdentifierIsValid(LegacyIdentifier(""))
    ensures !IdentifierIsValid(LegacyIdentifier("42"))
    ensures !IdentifierIsValid(LegacyIdentifier("1.2-3"))
  {
    IdentifierIsValidIff(LegacyIdentifier("a"));
    IdentifierIsValidIff(LegacyIdentifier(""));
    IdentifierIsValidIff(LegacyIdentifier("42"));
    IdentifierIsValidIff(LegacyIdentifier("1.2-3"));
    assert IsIdentStart("a"[0]);
  }

  // ---------------------------------------------------------------------
  // NamespacedName::is_valid
  // ---------------------------------------------------------------------

  /** The older namespaced name: any string, checked on demand. */
  datatype NamespacedName = NamespacedName(text: string)

  /** A whole-string match of `seg(\.seg)* / seg`: exactly one '/', an
   *  identifier before it and a segment after it. */
  predicate InNamespacedLanguage(t: string) {
    var p := Split(t, '/');
    |p| == 2 && InIdentifierLanguage(p[0]) && IsSegment(p[1])
  }

  /** `NamespacedName::is_valid`: some substring is in that language. */
  predicate NamespacedNameIsValid(n: NamespacedName) {
    exists i, j | 0 <= i <= j <= |n.text| :: InNamespacedLanguage(n.text[i..j])
  }

  /** A segment that ends right before a '/' followed by an identifier-start character. */
  predicate SegmentSlashStartAt(s: string, i: int, j: int) {
    0 <= i < j && j + 1 < |s| && IsSegment(s[i..j]) && s[j] == '/' && IsIdentStart(s[j + 1])
  }

  lemma SegmentHasNoSlash(t: string)
    requires IsSegment(t)
    ensures '/' !in t
  {
    forall k | 0 <= k < |t| ensures t[k] != '/' {
      if k > 0 { assert IsIdentChar(t[k]); }
    }
  }

  /** A whole-string match has its last identifier segment right before the '/'. */
  lemma NamespacedHead(t: string)
    requires InNamespacedLanguage(t)
    ensures exists a, b :: SegmentSlashStartAt(t, a, b)
  {
    var p := Split(t, '/');
    SplitHead(t, '/');
    var m := |p[0]|;
    SplitHead(t[m + 1..], '/');
    assert t[m + 1..][..|p[1]|] == p[1];
    assert t[m + 1] == p[1][0];
    var q := Split(p[0], '.');
    SplitLast(p[0], '.');
    var l := q[|q| - 1];
    assert IsSegment(l);
    assert t[..m] == p[0];
    assert t[m - |l|..m] == p[0][m - |l|..];
    assert SegmentSlashStartAt(t, m - |l|, m);
  }

  lemma NamespacedWitnessFromMatch(s: string, i: int, k: int)
    requires 0 <= i <= k <= |s| && InNamespacedLanguage(s[i..k])
    ensures exists a, b :: SegmentSlashStartAt(s, a, b)
  {
    var t := s[i..k];
    NamespacedHead(t);
    var a, b :| SegmentSlashStartAt(t, a, b);
    assert t[a..b] == s[i + a..i + b] by {
      forall x | 0 <= x < b - a ensures t[a..b][x] == s[i + a..i + b][x] {
        assert t[a..b][x] == t[a + x] == s[i + a + x];
      }
    }
    assert t[b] == s[i + b] && t[b + 1] == s[i + b + 1];
    assert SegmentSlashStartAt(s, i + a, i + b);
  }

  lemma NamespacedMatchFromWitness(s: string, a: int, b: int)
    requires SegmentSlashStartAt(s, a, b)
    ensures InNamespacedLanguage(s[a..b + 2])
  {
    var seg := s[a..b];
    var c := [s[b + 1]];
    SegmentHasNoSlash(seg);
    assert s[a..b + 2] == seg + ['/'] + c;
    SplitCons(seg, c, '/');
    SplitNoDelimiter(c, '/');
    SegmentHasNoDot(seg);
    SplitNoDelimiter(seg, '.');
    assert IsSegment(c);
  }

  /** Validity, stated without quantifying over substrings: a segment is
   *  followed by '/' and an identifier-start character. */
  lemma NamespacedNameIsValidIff(n: NamespacedName)
    ensures NamespacedNameIsValid(n) <==> exists a, b :: SegmentSlashStartAt(n.text, a, b)
  {
    var s := n.text;
    if NamespacedNameIsValid(n) {
      var i, k :| 0 <= i <= k <= |s| && InNamespacedLanguage(s[i..k]);
      NamespacedWitnessFromMatch(s, i, k);
    }
    if exists a, b :: SegmentSlashStartAt(s, a, b) {
      var a, b :| SegmentSlashStartAt(s, a, b);
      NamespacedMatchFromWitness(s, a, b);
    }
  }

  /** A name without '/' is never valid; "edu.umn/x" and "x!a/b" are. */
  lemma NamespacedNameExamples(n: NamespacedName)
    ensures '/' !in n.text ==> !NamespacedNameIsValid(n)
    ensures NamespacedNameIsValid(NamespacedName("edu.umn/x"))
    ensures NamespacedNameIsValid(NamespacedName("x!a/b"))
  {
    NamespacedNameIsValidIff(n);
    if '/' !in n.text {
      forall b | 0 <= b < |n.text| ensures n.text[b] != '/' { }
    }
    assert SegmentSlashStartAt("edu.umn/x", 4, 7);
    NamespacedNameIsValidIff(NamespacedName("edu.umn/x"));
    assert SegmentSlashStartAt("x!a/b", 2, 3);
    NamespacedNameIsValidIff(NamespacedName("x!a/b"));
  }

  // ---------------------------------------------------------------------
  // MontoVersion
  // ---------------------------------------------------------------------

  /** The protocol version record; the `u64` fields are unbounded here. */
  datatype MontoVersion = MontoVersion(major: nat, minor: nat, patch: nat)

  /** `From<MontoVersion> for Version`: no pre-release, no build part. */
  function AsSemver(v: MontoVersion): ProtocolVersion {
    ProtocolVersion(v.major, v.minor, v.patch)
  }

  /** `Default for MontoVersion`. */
  function DefaultMontoVersion(): (r: MontoVersion)
    ensures MontoVersionString(r) == "3.0.0"
  {
    MontoVersion(3, 0, 0)
  }

  /** The derived `Ord`: field by field, in declaration order. It agrees
   *  with the semver order of the converted version. */
  function MontoCompare(a: MontoVersion, b: MontoVersion): (r: Ordering)
    ensures r == Compare(AsSemver(a), AsSemver(b))
    ensures r == Equal <==> a == b
  {
    if a.major != b.major then CompareNat(a.major, b.major)
    else if a.minor != b.minor then CompareNat(a.minor, b.minor)
    else CompareNat(a.patch, b.patch)
  }

  /** `Display for MontoVersion`, through the semver display. */
  function MontoVersionString(v: MontoVersion): (r: string)
    ensures Split(r, '.') == [NatToString(v.major), NatToString(v.minor), NatToString(v.patch)]
  {
    ProtocolVersionString(AsSemver(v))
  }

  /** Distinct versions display differently. */
  lemma MontoVersionStringInjective(a: MontoVersion, b: MontoVersion)
    requires MontoVersionString(a) == MontoVersionString(b)
    ensures a == b
  {
    VersionTripleInjective(AsSemver(a), AsSemver(b));
  }
}
