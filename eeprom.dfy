/** Interpretation of a module's identity EEPROM: the compliance pair, the
    trimming of fixed-width vendor strings, and the fields the EEPROM is
    rendered from. */
module SfpEeprom {
  import opened SfpTypes
  import opened Wrappers

  /** Byte arrays of the EEPROM that the driver reads element 0 of. */
  type LeadByteArray = s: seq<bv8> | |s| >= 1 witness [0]

  /** The EEPROM fields the driver interprets (upper page 00h of SFF-8636).
      The vendor fields are fixed-width, NUL- or space-padded text. */
  datatype Eeprom = Eeprom(
    id: SfpId,
    connectorType: SfpConnectorType,
    compatibility: LeadByteArray,
    options: LeadByteArray,
    vendorName: seq<bv8>,
    vendorPartNumber: seq<bv8>,
    vendorRevision: seq<bv8>,
    vendorSerialNumber: seq<bv8>,
    vendorDateCode: seq<bv8>)

  /** Eeprom.GetCompliance: the compliance flags are Compatibility[0]; the
      extended code is Options[0] when the "extended valid" flag (bit 7) is
      set and "unspecified" otherwise, whatever Options[0] holds. */
  function GetCompliance(e: Eeprom): (r: (SfpCompliance, SfpExtendedCompliance))
    ensures r.0 == e.compatibility[0]
    ensures r.0 & SfpComplianceExtendedValid == 0 ==> r.1 == SfpExtendedComplianceUnspecified
    ensures r.0 & SfpComplianceExtendedValid != 0 ==> r.1 as int == e.options[0] as int
  {
    var c := e.compatibility[0];
    var x := if c & SfpComplianceExtendedValid != 0
      then e.options[0] as int as SfpExtendedCompliance
      else SfpExtendedComplianceUnspecified;
    (c, x)
  }

  /** Without the "extended valid" flag the extended code does not depend on
      Options at all: two EEPROMs that differ only there report the same pair. */
  lemma ExtendedCodeIgnoredWhenNotValid(e: Eeprom, options: LeadByteArray)
    requires e.compatibility[0] & SfpComplianceExtendedValid == 0
    ensures GetCompliance(e.(options := options)) == GetCompliance(e)
    ensures GetCompliance(e).1 == SfpExtendedComplianceUnspecified
  {
  }

  // Trimming of fixed-width text fields.

  /** The ASCII white space that strings.TrimSpace strips. */
  predicate IsSpace(b: bv8) {
    b == 0x20 || 0x09 <= b <= 0x0D
  }

  predicate AllSpace(s: seq<bv8>) {
    forall k :: 0 <= k < |s| ==> IsSpace(s[k])
  }

  /** strings.IndexByte: the position of the first c in b, or -1. */
  function IndexByte(b: seq<bv8>, c: bv8): (i: int)
    ensures -1 <= i < |b|
    ensures i == -1 <==> c !in b
    ensures i >= 0 ==> b[i] == c && c !in b[..i]
  {
    if b == [] then -1
    else if b[0] == c then 0
    else
      var j := IndexByte(b[1..], c);
      if j < 0 then -1
      else
        assert b[..j + 1] == [b[0]] + b[1..][..j];
        j + 1
  }

  /** The bytes of b before its first NUL, or all of b if it has none. */
  function BeforeNul(b: seq<bv8>): (p: seq<bv8>)
    ensures |p| <= |b| && p == b[..|p|] && 0 !in p
    ensures |p| < |b| ==> b[|p|] == 0
  {
    var i := IndexByte(b, 0);
    if i >= 0 then b[..i] else b
  }

  function TrimLeftSpace(b: seq<bv8>): (r: seq<bv8>)
    ensures |r| <= |b| && r == b[|b| - |r|..]
    ensures AllSpace(b[..|b| - |r|])
    ensures r == [] || !IsSpace(r[0])
  {
    if b != [] && IsSpace(b[0]) then
      var r := TrimLeftSpace(b[1..]);
      assert b[..|b| - |r|] == [b[0]] + b[1..][..|b| - 1 - |r|];
      r
    else b
  }

  function TrimRightSpace(b: seq<bv8>): (r: seq<bv8>)
    ensures |r| <= |b| && r == b[..|r|]
    ensures AllSpace(b[|r|..])
    ensures r == [] || !IsSpace(r[|r| - 1])
  {
    if b != [] && IsSpace(b[|b| - 1]) then
      var r := TrimRightSpace(b[..|b| - 1]);
      assert b[|r|..] == b[..|b| - 1][|r|..] + [b[|b| - 1]];
      r
    else b
  }

  /** s is p[i..j] and everything of p outside it is white space. */
  predicate TrimmedAt(s: seq<bv8>, p: seq<bv8>, i: nat, j: nat) {
    i <= j <= |p| && s == p[i..j] && AllSpace(p[..i]) && AllSpace(p[j..])
  }

  /** s is what is left of p once leading and trailing white space is cut. */
  ghost predicate TrimmedOf(s: seq<bv8>, p: seq<bv8>) {
    exists i: nat, j: nat :: TrimmedAt(s, p, i, j)
  }

  /** trim: the text of a fixed-width field.  It holds no NUL and neither
      starts nor ends with white space (TrimTrimmed says what it is cut from). */
  function Trim(b: seq<bv8>): (s: seq<bv8>)
    ensures 0 !in s
    ensures s == [] || (!IsSpace(s[0]) && !IsSpace(s[|s| - 1]))
  {
    TrimRightSpace(TrimLeftSpace(BeforeNul(b)))
  }

  /** The trimmed text is the part of the field before its first NUL (all of
      the field when there is none) with the white space at both ends cut. */
  lemma TrimTrimmed(b: seq<bv8>)
    ensures TrimmedOf(Trim(b), BeforeNul(b))
  {
    var p := BeforeNul(b);
    var l := TrimLeftSpace(p);
    CutBothEnds(p, l, TrimRightSpace(l));
  }

  /** Cutting white space off the front of p, leaving l, and then off the
      back of l, leaving s, cuts p at |p| - |l| and |p| - |l| + |s|. */
  lemma CutBothEnds(p: seq<bv8>, l: seq<bv8>, s: seq<bv8>)
    requires |l| <= |p| && l == p[|p| - |l|..] && AllSpace(p[..|p| - |l|])
    requires |s| <= |l| && s == l[..|s|] && AllSpace(l[|s|..])
    ensures TrimmedAt(s, p, |p| - |l|, |p| - |l| + |s|)
  {
    var i := |p| - |l|;
    var j := i + |s|;
    assert p[j..] == l[|s|..];
  }

  /** Where a non-empty text without white space at its ends sits inside p is
      fixed: two such cuts of p, the second possibly empty, cut at the same
      places. */
  lemma TrimmedAtUnique(p: seq<bv8>, s: seq<bv8>, t: seq<bv8>, i: nat, j: nat, i': nat, j': nat)
    requires TrimmedAt(s, p, i, j) && TrimmedAt(t, p, i', j')
    requires s != [] && !IsSpace(s[0]) && !IsSpace(s[|s| - 1])
    requires t == [] || (!IsSpace(t[0]) && !IsSpace(t[|t| - 1]))
    ensures i == i' && j == j'
  {
    SpaceOutside(p, i, j);
    SpaceOutside(p, i', j');
    assert p[i] == s[0] && p[j - 1] == s[|s| - 1];
    assert t != [] ==> p[i'] == t[0] && p[j' - 1] == t[|t| - 1];
  }

  /** The white space around a cut, byte by byte. */
  lemma SpaceOutside(p: seq<bv8>, i: nat, j: nat)
    requires i <= j <= |p| && AllSpace(p[..i]) && AllSpace(p[j..])
    ensures forall k :: 0 <= k < |p| && (k < i || j <= k) ==> IsSpace(p[k])
  {
    forall k | 0 <= k < |p| && (k < i || j <= k) ensures IsSpace(p[k]) {
      if k < i { assert p[..i][k] == p[k]; } else { assert p[j..][k - j] == p[k]; }
    }
  }

  /** Trim's result is the only text free of white space at both ends that
      the field cuts down to: any other such non-empty s equals it. */
  lemma TrimUnique(b: seq<bv8>, s: seq<bv8>)
    requires TrimmedOf(s, BeforeNul(b))
    requires s != [] && !IsSpace(s[0]) && !IsSpace(s[|s| - 1])
    ensures s == Trim(b)
  {
    var p := BeforeNul(b);
    var i: nat, j: nat :| TrimmedAt(s, p, i, j);
    TrimTrimmed(b);
    var i': nat, j': nat :| TrimmedAt(Trim(b), p, i', j');
    TrimmedAtUnique(p, s, Trim(b), i, j, i', j');
  }

  /** A field holding text w, without NUL and without white space at its
      ends, followed by a NUL and any padding, trims to exactly w. */
  lemma TrimPadded(w: seq<bv8>, pad: seq<bv8>)
    requires w != [] && 0 !in w && !IsSpace(w[0]) && !IsSpace(w[|w| - 1])
    ensures Trim(w + [0] + pad) == w
  {
    var b := w + [0] + pad;
    var p := BeforeNul(b);
    assert b[..|w|] == w && b[|w|] == 0;
    assert p == w;
    var l := TrimLeftSpace(w);
    assert l == w;
    var r := TrimRightSpace(w);
    assert r == w;
  }

  /** A vendor name "ACME", NUL-padded, with spaces after the NULs, trims
      to exactly "ACME". */
  lemma TrimAcmeExample()
    ensures Trim([0x41, 0x43, 0x4D, 0x45, 0x00, 0x00, 0x20, 0x20]) == [0x41, 0x43, 0x4D, 0x45]
  {
    var w: seq<bv8> := [0x41, 0x43, 0x4D, 0x45];
    TrimPadded(w, [0x00, 0x20, 0x20]);
    assert w + [0] + [0x00, 0x20, 0x20] == [0x41, 0x43, 0x4D, 0x45, 0x00, 0x00, 0x20, 0x20];
  }

  // Rendering.

  /** The pieces Eeprom.String formats, in order. */
  datatype Description = Description(
    id: Name,
    vendor: seq<bv8>,
    partNumber: seq<bv8>,
    revision: seq<bv8>,
    serial: seq<bv8>,
    date: seq<bv8>,
    connector: Name,
    compliance: seq<string>,
    extended: Option<Name>)

  /** Eeprom.String: the identity, the five trimmed vendor fields, the
      connector, the compliance flags and, only when it is not "unspecified",
      the extended compliance code. */
  function EepromString(e: Eeprom): (d: Description)
    ensures d.id == SfpIdString(e.id) && d.connector == SfpConnectorTypeString(e.connectorType)
    ensures d.vendor == Trim(e.vendorName) && d.partNumber == Trim(e.vendorPartNumber)
    ensures d.revision == Trim(e.vendorRevision) && d.serial == Trim(e.vendorSerialNumber)
    ensures d.date == Trim(e.vendorDateCode)
    ensures forall k :: 0 <= k < 8 ==>
      (SfpComplianceNames[k] in d.compliance <==> e.compatibility[0] & ComplianceBit(k) != 0)
    ensures d.extended.Some? <==> e.compatibility[0] & SfpComplianceExtendedValid != 0 && e.options[0] != 0
    ensures d.extended.Some? ==> d.extended.value == SfpExtendedComplianceString(e.options[0] as int as SfpExtendedCompliance)
  {
    var (c, x) := GetCompliance(e);
    Description(
      SfpIdString(e.id),
      Trim(e.vendorName), Trim(e.vendorPartNumber), Trim(e.vendorRevision),
      Trim(e.vendorSerialNumber), Trim(e.vendorDateCode),
      SfpConnectorTypeString(e.connectorType),
      SfpComplianceString(c),
      if x != SfpExtendedComplianceUnspecified then Some(SfpExtendedComplianceString(x)) else None)
  }
}
