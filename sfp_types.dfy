/** Classification codes of SFP/QSFP modules (SFF-8024 Tables 4-1, 4-3 and
    4-4, and the 10/40G compliance byte of SFF-8636) and the tables that
    name them. */
module SfpTypes {

  /** What a code renders as.  A code inside its table with a non-empty entry
      renders as that entry; any other code (reserved, vendor-specific, past
      the end of the table) renders as a fallback built from the number by
      the platform's generic stringer, whose text is not part of this model. */
  datatype Name = Named(text: string) | Unnamed(code: nat)

  /** The generic table lookup every String method below goes through. */
  function Stringer(names: seq<string>, i: nat): Name {
    if i < |names| && names[i] != "" then Named(names[i]) else Unnamed(i)
  }

  // Module identifiers (SFF-8024 Table 4-1).

  newtype SfpId = x: int | 0 <= x < 0x100

  const IdUnknown: SfpId := 0x00
  const IdGbic: SfpId := 0x01
  const IdOnMotherboard: SfpId := 0x02
  const IdSfp: SfpId := 0x03
  const IdXbi: SfpId := 0x04
  const IdXenpak: SfpId := 0x05
  const IdXfp: SfpId := 0x06
  const IdXff: SfpId := 0x07
  const IdXfpE: SfpId := 0x08
  const IdXpak: SfpId := 0x09
  const IdX2: SfpId := 0x0A
  const IdDwdmSfp: SfpId := 0x0B
  const IdQsfp: SfpId := 0x0C
  const IdQsfpPlus: SfpId := 0x0D
  const IdCxp: SfpId := 0x0E
  const IdShieldedMiniMultilaneHD4X: SfpId := 0x0F
  const IdShieldedMiniMultilaneHD8X: SfpId := 0x10
  const IdQsfp28: SfpId := 0x11
  const IdCxp2: SfpId := 0x12
  const IdCdfpStyle12: SfpId := 0x13
  const IdShieldedMiniMultilaneHD4XFanout: SfpId := 0x14
  const IdShieldedMiniMultilaneHD8XFanoutCable: SfpId := 0x15
  const IdCdfpStyle3: SfpId := 0x16
  const IdMicroQsfp: SfpId := 0x17
  const IdQsfpDD: SfpId := 0x18

  /** The identifier constants in declaration order (one iota block). */
  const SfpIds: seq<SfpId> := [
    IdUnknown, IdGbic, IdOnMotherboard, IdSfp, IdXbi, IdXenpak, IdXfp, IdXff,
    IdXfpE, IdXpak, IdX2, IdDwdmSfp, IdQsfp, IdQsfpPlus, IdCxp,
    IdShieldedMiniMultilaneHD4X, IdShieldedMiniMultilaneHD8X, IdQsfp28, IdCxp2,
    IdCdfpStyle12, IdShieldedMiniMultilaneHD4XFanout,
    IdShieldedMiniMultilaneHD8XFanoutCable, IdCdfpStyle3, IdMicroQsfp, IdQsfpDD]

  const SfpIdNames: seq<string> := [
    "Unknown or unspecified",
    "GBIC",
    "Module/connector soldered to motherboard",
    "SFP/SFP+/SFP28",
    "300 pin XBI",
    "XENPAK",
    "XFP",
    "XFF",
    "XFP-E",
    "XPAK",
    "X2",
    "DWDM-SFP/SFP+",
    "QSFP",
    "QSFP+",
    "CXP",
    "Shielded Mini Multilane HD 4X",
    "Shielded Mini Multilane HD 8X",
    "QSFP28",
    "CXP2/CXP28",
    "CDFP (Style 1/Style2)",
    "Shielded Mini Multilane HD 4X Fanout Cable",
    "Shielded Mini Multilane HD 8X Fanout Cable",
    "CDFP (Style 3)",
    "Micro QSFP",
    "QSFP-DD"]

  /** The identifiers are numbered consecutively from IdUnknown = 0 up to
      IdQsfpDD = 0x18, and the name table has exactly one entry per code. */
  lemma SfpIdsConsecutive()
    ensures |SfpIds| == |SfpIdNames| == IdQsfpDD as int + 1
    ensures forall k :: 0 <= k < |SfpIds| ==> SfpIds[k] as int == k
  {
  }

  /** SfpId.String: every identifier up to IdQsfpDD has its own name; the
      reserved (0x19..0x7F) and vendor-specific (0x80..0xFF) codes have none. */
  function SfpIdString(i: SfpId): (r: Name)
    ensures r.Named? <==> i <= IdQsfpDD
    ensures r.Named? ==> r.text == SfpIdNames[i]
  {
    Stringer(SfpIdNames, i as nat)
  }

  // Connector types (SFF-8024 Table 4-3).

  newtype SfpConnectorType = x: int | 0 <= x < 0x100

  const SfpConnectorUnknown: SfpConnectorType := 0x00
  const SfpConnectorSubscriber: SfpConnectorType := 0x01
  const SfpConnectorFibreChannelStyle1: SfpConnectorType := 0x02
  const SfpConnectorFibreChannelStyle2: SfpConnectorType := 0x03
  const SfpConnectorBNCTNC: SfpConnectorType := 0x04
  const SfpConnectorFibreChannelCoax: SfpConnectorType := 0x05
  const SfpConnectorFiberJack: SfpConnectorType := 0x06
  const SfpConnectorLucent: SfpConnectorType := 0x07
  const SfpConnectorMTRJ: SfpConnectorType := 0x08
  const SfpConnectorMU: SfpConnectorType := 0x09
  const SfpConnectorSG: SfpConnectorType := 0x0A
  const SfpConnectorOpticalPigtail: SfpConnectorType := 0x0B
  const SfpConnectorMPO1x12: SfpConnectorType := 0x0C
  const SfpConnectorMPO2x16: SfpConnectorType := 0x0D
  const SfpConnectorHSSDC2: SfpConnectorType := 0x20
  const SfpConnectorCopperPigtail: SfpConnectorType := 0x21
  const SfpConnectorRJ45: SfpConnectorType := 0x22
  const SfpConnectorNoSeparableConnector: SfpConnectorType := 0x23
  const SfpConnectorMXC2x16: SfpConnectorType := 0x24

  /** The consecutively numbered connector constants, in declaration order. */
  const SfpConnectorsLow: seq<SfpConnectorType> := [
    SfpConnectorUnknown, SfpConnectorSubscriber, SfpConnectorFibreChannelStyle1,
    SfpConnectorFibreChannelStyle2, SfpConnectorBNCTNC, SfpConnectorFibreChannelCoax,
    SfpConnectorFiberJack, SfpConnectorLucent, SfpConnectorMTRJ, SfpConnectorMU,
    SfpConnectorSG, SfpConnectorOpticalPigtail, SfpConnectorMPO1x12, SfpConnectorMPO2x16]

  /** The explicitly numbered connector constants, in declaration order. */
  const SfpConnectorsHigh: seq<SfpConnectorType> := [
    SfpConnectorHSSDC2, SfpConnectorCopperPigtail, SfpConnectorRJ45,
    SfpConnectorNoSeparableConnector, SfpConnectorMXC2x16]

  /** Names of codes 0x00..0x0D; the table is keyed, so 0x0E..0x1F are
      empty entries and 0x20..0x24 follow. */
  const SfpConnectorNamesLow: seq<string> := [
    "Unknown or unspecified",
    "SC (Subscriber Connector)",
    "Fibre Channel Style 1 copper connector",
    "Fibre Channel Style 2 copper connector",
    "BNC/TNC (Bayonet/Threaded Neill-Concelman)",
    "Fibre Channel coax headers",
    "Fiber Jack",
    "LC (Lucent Connector)",
    "MT-RJ (Mechanical Transfer - Registered Jack)",
    "MU (Multiple Optical)",
    "SG",
    "Optical Pigtail",
    "MPO 1x12 (Multifiber Parallel Optic)",
    "MPO 2x16"]

  const SfpConnectorNamesHigh: seq<string> := [
    "HSSDC II (High Speed Serial Data Connector)",
    "Copper pigtail",
    "RJ45 (Registered Jack)",
    "No separable connector",
    "MXC 2x16"]

  /** n empty entries: the codes a keyed table literal skips. */
  function NoNames(n: nat): (r: seq<string>)
    ensures |r| == n
  {
    seq(n, _ => "")
  }

  const SfpConnectorTypeNames: seq<string> :=
    SfpConnectorNamesLow + NoNames(0x20 - 0x0E) + SfpConnectorNamesHigh

  /** The connector constants form two runs, 0x00..0x0D and 0x20..0x24, and
      the name table is 0x25 entries long with empty entries 0x0E..0x1F. */
  lemma SfpConnectorTypeLayout()
    ensures forall k :: 0 <= k < |SfpConnectorsLow| ==> SfpConnectorsLow[k] as int == k
    ensures forall k :: 0 <= k < |SfpConnectorsHigh| ==> SfpConnectorsHigh[k] as int == 0x20 + k
    ensures |SfpConnectorsLow| == SfpConnectorMPO2x16 as int + 1
    ensures |SfpConnectorTypeNames| == 0x25
    ensures forall k :: 0x0E <= k < 0x20 ==> SfpConnectorTypeNames[k] == ""
  {
  }

  /** SfpConnectorType.String: exactly the declared connector codes have a
      name; the gap 0x0E..0x1F and everything past 0x24 do not. */
  function SfpConnectorTypeString(c: SfpConnectorType): (r: Name)
    ensures r.Named? <==> c <= SfpConnectorMPO2x16 || SfpConnectorHSSDC2 <= c <= SfpConnectorMXC2x16
    ensures c <= SfpConnectorMPO2x16 ==> r == Named(SfpConnectorNamesLow[c])
    ensures SfpConnectorHSSDC2 <= c <= SfpConnectorMXC2x16 ==> r == Named(SfpConnectorNamesHigh[c - 0x20])
  {
    Stringer(SfpConnectorTypeNames, c as nat)
  }

  // The 10/40G Ethernet compliance byte: a set of eight flags.

  type SfpCompliance = bv8

  const Log2SfpCompliance40GXLPPI: nat := 0
  const Log2SfpCompliance40G_LR: nat := 1
  const Log2SfpCompliance40G_SR: nat := 2
  const Log2SfpCompliance40G_CR: nat := 3
  const Log2SfpCompliance10G_SR: nat := 4
  const Log2SfpCompliance10G_LR: nat := 5
  const Log2SfpCompliance10G_LRM: nat := 6
  const Log2SfpComplianceExtendedValid: nat := 7

  const SfpCompliance40GXLPPI: SfpCompliance := 0x01
  const SfpCompliance40G_LR: SfpCompliance := 0x02
  const SfpCompliance40G_SR: SfpCompliance := 0x04
  const SfpCompliance40G_CR: SfpCompliance := 0x08
  const SfpCompliance10G_SR: SfpCompliance := 0x10
  const SfpCompliance10G_LR: SfpCompliance := 0x20
  const SfpCompliance10G_LRM: SfpCompliance := 0x40
  const SfpComplianceExtendedValid: SfpCompliance := 0x80

  /** The flag at bit position k. */
  function ComplianceBit(k: nat): SfpCompliance
    requires k < 8
  {
    (1 as bv8) << k
  }

  /** Each flag constant is 1 << its Log2 constant; the positions are 0..7. */
  lemma ComplianceConstants()
    ensures SfpCompliance40GXLPPI == ComplianceBit(Log2SfpCompliance40GXLPPI) && Log2SfpCompliance40GXLPPI == 0
    ensures SfpCompliance40G_LR == ComplianceBit(Log2SfpCompliance40G_LR) && Log2SfpCompliance40G_LR == 1
    ensures SfpCompliance40G_SR == ComplianceBit(Log2SfpCompliance40G_SR) && Log2SfpCompliance40G_SR == 2
    ensures SfpCompliance40G_CR == ComplianceBit(Log2SfpCompliance40G_CR) && Log2SfpCompliance40G_CR == 3
    ensures SfpCompliance10G_SR == ComplianceBit(Log2SfpCompliance10G_SR) && Log2SfpCompliance10G_SR == 4
    ensures SfpCompliance10G_LR == ComplianceBit(Log2SfpCompliance10G_LR) && Log2SfpCompliance10G_LR == 5
    ensures SfpCompliance10G_LRM == ComplianceBit(Log2SfpCompliance10G_LRM) && Log2SfpCompliance10G_LRM == 6
    ensures SfpComplianceExtendedValid == ComplianceBit(Log2SfpComplianceExtendedValid)
    ensures Log2SfpComplianceExtendedValid == 7 && SfpComplianceExtendedValid == 0x80
  {
  }

  /** Flag names, indexed by bit position. */
  const SfpComplianceNames: seq<string> := [
    "40G XLPPI",
    "40G LR",
    "40G SR",
    "40G CR",
    "10G SR",
    "10G LR",
    "10G LRM",
    "extended"]

  /** The eight flag names are distinct, and position 7 is "extended". */
  lemma SfpComplianceNamesDistinct()
    ensures |SfpComplianceNames| == 8
    ensures forall i, j :: 0 <= i < j < 8 ==> SfpComplianceNames[i] != SfpComplianceNames[j]
    ensures SfpComplianceNames[Log2SfpComplianceExtendedValid] == "extended"
  {
  }

  /** The names of the flags set in c, from bit position k upwards. */
  function ComplianceFlagNames(c: SfpCompliance, k: nat): (r: seq<string>)
    requires k <= 8
    ensures |r| <= 8 - k
    ensures forall j :: 0 <= j < |r| ==> r[j] in SfpComplianceNames[k..]
    ensures forall j :: k <= j < 8 && c & ComplianceBit(j) != 0 ==> SfpComplianceNames[j] in r
    decreases 8 - k
  {
    if k == 8 then []
    else
      var names := SfpComplianceNames;
      assert names[k + 1..] == names[k..][1..] && names[k] == names[k..][0];
      (if c & ComplianceBit(k) != 0 then [names[k]] else [])
      + ComplianceFlagNames(c, k + 1)
  }

  /** SfpCompliance.String: the names of exactly the flags that are set, in
      bit order (how the platform's flag stringer joins them is not part of
      this model). */
  function SfpComplianceString(c: SfpCompliance): (r: seq<string>)
    ensures forall k :: 0 <= k < 8 ==> (SfpComplianceNames[k] in r <==> c & ComplianceBit(k) != 0)
  {
    SfpComplianceNamesDistinct();
    var r := ComplianceFlagNames(c, 0);
    forall k | 0 <= k < 8 && SfpComplianceNames[k] in r
      ensures c & ComplianceBit(k) != 0
    {
      FlagNamesOnlySet(c, 0, k);
    }
    r
  }

  lemma {:induction false} FlagNamesOnlySet(c: SfpCompliance, k: nat, j: nat)
    requires k <= 8 && j < 8
    requires SfpComplianceNames[j] in ComplianceFlagNames(c, k)
    ensures k <= j && c & ComplianceBit(j) != 0
    decreases 8 - k
  {
    SfpComplianceNamesDistinct();
    var rest := ComplianceFlagNames(c, k + 1);
    if SfpComplianceNames[j] in rest {
      FlagNamesOnlySet(c, k + 1, j);
    } else {
      assert ComplianceFlagNames(c, k) == (if c & ComplianceBit(k) != 0 then [SfpComplianceNames[k]] else []) + rest;
      assert SfpComplianceNames[j] == SfpComplianceNames[k] && c & ComplianceBit(k) != 0;
    }
  }

  // Extended specification compliance codes (SFF-8024 Table 4-4).

  newtype SfpExtendedCompliance = x: int | 0 <= x < 0x100

  const SfpExtendedComplianceUnspecified: SfpExtendedCompliance := 0x00
  const SfpExtendedCompliance100G_AOC_BER_5e5: SfpExtendedCompliance := 0x01
  const SfpExtendedCompliance100G_SR: SfpExtendedCompliance := 0x02
  const SfpExtendedCompliance100G_LR: SfpExtendedCompliance := 0x03
  const SfpExtendedCompliance100G_ER: SfpExtendedCompliance := 0x04
  const SfpExtendedCompliance100G_SR10: SfpExtendedCompliance := 0x05
  const SfpExtendedCompliance100G_CWDM4: SfpExtendedCompliance := 0x06
  const SfpExtendedCompliance100G_PSM4: SfpExtendedCompliance := 0x07
  const SfpExtendedCompliance100G_ACC_BER_5e5: SfpExtendedCompliance := 0x08
  // 0x09 obsolete and 0x0A reserved: no constant.
  const SfpExtendedCompliance100G_CR: SfpExtendedCompliance := 0x0B
  const SfpExtendedCompliance25G_CR_CA_S: SfpExtendedCompliance := 0x0C
  const SfpExtendedCompliance25G_CR_CA_N: SfpExtendedCompliance := 0x0D
  // 0x0E and 0x0F reserved: no constant.
  const SfpExtendedCompliance40G_ER: SfpExtendedCompliance := 0x10
  const SfpExtendedCompliance4x10G_SR: SfpExtendedCompliance := 0x11
  const SfpExtendedCompliance40G_PSM4: SfpExtendedCompliance := 0x12
  const SfpExtendedComplianceG959_1_P1I1_2D1: SfpExtendedCompliance := 0x13
  const SfpExtendedComplianceG959_1_P1S1_2D2: SfpExtendedCompliance := 0x14
  const SfpExtendedComplianceG959_1_P1L1_2D2: SfpExtendedCompliance := 0x15
  const SfpExtendedCompliance10GBASE_T: SfpExtendedCompliance := 0x16
  const SfpExtendedCompliance100G_CLR4: SfpExtendedCompliance := 0x17
  const SfpExtendedCompliance100G_AOC_BER_1e12: SfpExtendedCompliance := 0x18
  const SfpExtendedCompliance100G_ACC_BER_1e12: SfpExtendedCompliance := 0x19
  const SfpExtendedCompliance100GE_DWDM2: SfpExtendedCompliance := 0x1A

  /** Every declared constant, in declaration order. */
  const SfpExtendedCompliances: seq<SfpExtendedCompliance> := [
    SfpExtendedComplianceUnspecified, SfpExtendedCompliance100G_AOC_BER_5e5,
    SfpExtendedCompliance100G_SR, SfpExtendedCompliance100G_LR,
    SfpExtendedCompliance100G_ER, SfpExtendedCompliance100G_SR10,
    SfpExtendedCompliance100G_CWDM4, SfpExtendedCompliance100G_PSM4,
    SfpExtendedCompliance100G_ACC_BER_5e5, SfpExtendedCompliance100G_CR,
    SfpExtendedCompliance25G_CR_CA_S, SfpExtendedCompliance25G_CR_CA_N,
    SfpExtendedCompliance40G_ER, SfpExtendedCompliance4x10G_SR,
    SfpExtendedCompliance40G_PSM4, SfpExtendedComplianceG959_1_P1I1_2D1,
    SfpExtendedComplianceG959_1_P1S1_2D2, SfpExtendedComplianceG959_1_P1L1_2D2,
    SfpExtendedCompliance10GBASE_T, SfpExtendedCompliance100G_CLR4,
    SfpExtendedCompliance100G_AOC_BER_1e12, SfpExtendedCompliance100G_ACC_BER_1e12,
    SfpExtendedCompliance100GE_DWDM2]

  /** Names by code; the reserved and obsolete codes hold empty entries. */
  const SfpExtendedComplianceNames: seq<string> := [
    "unspecified",
    "100G AOC BER < 5e-5",
    "100GBASE-SR4",
    "100GBASE-LR4",
    "100GBASE-ER4",
    "100GBASE-SR10",
    "100G CWDM4",
    "100G PSM4 Parallel SMF",
    "100G ACC BER < 5e-5",
    "",
    "",
    "100GBASE-CR4 or 25GBASE-CR CA-L",
    "25GBASE-CR CA-S",
    "25GBASE-CR CA-N",
    "",
    "",
    "40GBASE-ER4",
    "4 x 10GBASE-SR",
    "40G PSM4",
    "G959.1 profile P1I1-2D1 (10709 MBd, 2km, 1310nm SM)",
    "G959.1 profile P1S1-2D2 (10709 MBd, 40km, 1550nm SM)",
    "G959.1 profile P1L1-2D2 (10709 MBd, 80km, 1550nm SM)",
    "10GBASE-T with SFI electrical interface",
    "100G CLR4",
    "100G AOC BER < 1e-12",
    "100G ACC BER < 1e-12",
    "100GE-DWDM2"]

  /** A code the table leaves unnamed: obsolete 0x09, reserved 0x0A, 0x0E,
      0x0F, and everything past 0x1A. */
  predicate ExtendedComplianceReserved(x: SfpExtendedCompliance) {
    x == 0x09 || x == 0x0A || x == 0x0E || x == 0x0F || x > SfpExtendedCompliance100GE_DWDM2
  }

  /** SfpExtendedCompliance.String: a reserved or obsolete code never takes
      a neighbour's name; every other code up to 0x1A has one. */
  function SfpExtendedComplianceString(x: SfpExtendedCompliance): (r: Name)
    ensures r.Unnamed? <==> ExtendedComplianceReserved(x)
    ensures r.Named? ==> r.text == SfpExtendedComplianceNames[x]
  {
    Stringer(SfpExtendedComplianceNames, x as nat)
  }

  /** The keyed table puts each constant's name at the constant's code, so
      skipping 0x09, 0x0A, 0x0E and 0x0F shifts no name. */
  lemma ExtendedComplianceNamedByConstant()
    ensures SfpExtendedComplianceString(SfpExtendedComplianceUnspecified) == Named("unspecified")
    ensures SfpExtendedComplianceString(SfpExtendedCompliance100G_ACC_BER_5e5) == Named("100G ACC BER < 5e-5")
    ensures SfpExtendedComplianceString(SfpExtendedCompliance100G_CR) == Named("100GBASE-CR4 or 25GBASE-CR CA-L")
    ensures SfpExtendedComplianceString(SfpExtendedCompliance25G_CR_CA_N) == Named("25GBASE-CR CA-N")
    ensures SfpExtendedComplianceString(SfpExtendedCompliance40G_ER) == Named("40GBASE-ER4")
    ensures SfpExtendedComplianceString(SfpExtendedCompliance100GE_DWDM2) == Named("100GE-DWDM2")
    ensures |SfpExtendedComplianceNames| == SfpExtendedCompliance100GE_DWDM2 as int + 1
  {
  }

  /** The code of the k-th declared constant: its position, shifted past the
      two unnamed codes at 0x09-0x0A and then past the two at 0x0E-0x0F. */
  function ExtendedCodeAt(k: nat): nat {
    if k < 9 then k else if k < 12 then k + 2 else k + 4
  }

  /** The k-th constant has code ExtendedCodeAt(k). */
  lemma ExtendedCompliancesLayout()
    ensures |SfpExtendedCompliances| == 23
    ensures forall k :: 0 <= k < |SfpExtendedCompliances| ==>
      SfpExtendedCompliances[k] as int == ExtendedCodeAt(k)
  {
  }

  /** Every code the table does not reserve has a non-empty name. */
  lemma ExtendedNamesNonEmpty()
    ensures forall x: SfpExtendedCompliance :: !ExtendedComplianceReserved(x) ==>
      SfpExtendedComplianceNames[x] != ""
  {
    forall x: SfpExtendedCompliance | !ExtendedComplianceReserved(x)
      ensures SfpExtendedComplianceNames[x] != ""
    {
      var names := SfpExtendedComplianceNames;
      assert names[x] == names[x as int];
    }
  }

  /** All 23 constants, in strictly increasing order, are exactly the codes
      the table names: each is named by its own, non-empty entry, and every
      code not reserved is one of them. */
  lemma ExtendedCompliancesNamed()
    ensures |SfpExtendedCompliances| == 23
    ensures forall j, k :: 0 <= j < k < |SfpExtendedCompliances| ==>
      SfpExtendedCompliances[j] < SfpExtendedCompliances[k]
    ensures forall k :: 0 <= k < |SfpExtendedCompliances| ==>
      !ExtendedComplianceReserved(SfpExtendedCompliances[k]) &&
      SfpExtendedComplianceNames[SfpExtendedCompliances[k]] != "" &&
      SfpExtendedComplianceString(SfpExtendedCompliances[k]) ==
        Named(SfpExtendedComplianceNames[SfpExtendedCompliances[k]])
    ensures forall x: SfpExtendedCompliance ::
      !ExtendedComplianceReserved(x) ==> x in SfpExtendedCompliances
  {
    ExtendedCompliancesLayout();
    ExtendedNamesNonEmpty();
    forall x: SfpExtendedCompliance | !ExtendedComplianceReserved(x)
      ensures x in SfpExtendedCompliances
    {
      var k := if x < 9 then x as int else if x < 14 then x as int - 2 else x as int - 4;
      assert SfpExtendedCompliances[k] == x;
    }
  }
}
