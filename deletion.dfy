// deleteAidingData: the request built for the QMI-LOC "delete GNSS service
// data" message (the newer API) and for the legacy "delete assist data"
// message the adapter falls back to.

module Deletion {
  import opened Status
  import opened Gnss

  /** Bits of the consumer's GnssAidingDataSvMask. */
  datatype SvAidBit =
    | SvEphemeris | SvAlmanac | SvHealth | SvDirection | SvSteer | SvAlmanacCorr
    | SvBlacklist | SvSaData | SvNoExist | SvIonosphere | SvTime

  /** Bits of the consumer's GnssAidingDataSvTypeMask. */
  datatype SvTypeBit = SvTypeGps | SvTypeGlonass | SvTypeQzss | SvTypeBeidou | SvTypeGalileo

  /** Bits of the consumer's GnssAidingDataCommonMask. */
  datatype CommonBit = ComPosition | ComTime | ComUtc | ComRti | ComFreqBiasEst | ComCellDb

  /** GnssAidingData, the fields deleteAidingData reads. */
  datatype GnssAidingData = GnssAidingData(
    deleteAll: bool, svMask: set<SvAidBit>, svTypeMask: set<SvTypeBit>, commonMask: set<CommonBit>)

  /** QMI_LOC_SYSTEM_* bits of the satellite-data block. */
  datatype QmiSystem = QSysGps | QSysGlo | QSysBds | QSysGal | QSysQzss

  /** QMI_LOC_MASK_DELETE_CELLDB_* bits. */
  datatype CellDbBit =
    | CellDbPos | CellDbLatestGpsPos | CellDbOtaPos | CellDbExtRefPos | CellDbTimetag
    | CellDbCellId | CellDbCachedCellId | CellDbLastSrvCell | CellDbCurSrvCell | CellDbNeighborInfo

  /** Every cell-database bit: the CELLDB request always clears the whole database. */
  const AllCellDb: set<CellDbBit> :=
    {CellDbPos, CellDbLatestGpsPos, CellDbOtaPos, CellDbExtRefPos, CellDbTimetag,
     CellDbCellId, CellDbCachedCellId, CellDbLastSrvCell, CellDbCurSrvCell, CellDbNeighborInfo}

  /** The satellite-data block: each QMI_LOC_DELETE_DATA_MASK_* bit is named
      here by the consumer SV bit it is set from (the mapping is one-to-one). */
  datatype SatData = SatData(mask: set<SvAidBit>, system: set<QmiSystem>)

  /** qmiLocDeleteGNSSServiceDataReqMsgT_v02; a `_valid` flag is a `Some`,
      and the QMI common-data bits are named by their consumer common bits. */
  datatype DeleteGnssServiceDataReq = DeleteGnssServiceDataReq(
    deleteAllFlag: bool,
    satelliteData: Option<SatData>,
    commonData: Option<set<CommonBit>>,
    cellDb: Option<set<CellDbBit>>)

  /** The system bit each consumer constellation bit stands for. */
  function SystemOf(t: SvTypeBit): QmiSystem {
    match t
    case SvTypeGps => QSysGps
    case SvTypeGlonass => QSysGlo
    case SvTypeQzss => QSysQzss
    case SvTypeBeidou => QSysBds
    case SvTypeGalileo => QSysGal
  }

  /** Reference inverse of SystemOf. */
  function ConstellationOf(s: QmiSystem): SvTypeBit {
    match s
    case QSysGps => SvTypeGps
    case QSysGlo => SvTypeGlonass
    case QSysQzss => SvTypeQzss
    case QSysBds => SvTypeBeidou
    case QSysGal => SvTypeGalileo
  }

  /** The system bits, as the code sets them: QZSS is sent as BDS, BeiDou as
      Galileo and Galileo as QZSS. */
  function SystemsAsWritten(types: set<SvTypeBit>): (r: set<QmiSystem>)
    ensures QSysGps in r <==> SvTypeGps in types
    ensures QSysGlo in r <==> SvTypeGlonass in types
    ensures QSysBds in r <==> SvTypeQzss in types
    ensures QSysGal in r <==> SvTypeBeidou in types
    ensures QSysQzss in r <==> SvTypeGalileo in types
  {
    (if SvTypeGps in types then {QSysGps} else {})
    + (if SvTypeGlonass in types then {QSysGlo} else {})
    + (if SvTypeQzss in types then {QSysBds} else {})
    + (if SvTypeBeidou in types then {QSysGal} else {})
    + (if SvTypeGalileo in types then {QSysQzss} else {})
  }

  /** The system bits, each constellation sent as itself. */
  function Systems(types: set<SvTypeBit>): (r: set<QmiSystem>)
    ensures forall s :: s in r <==> ConstellationOf(s) in types
  {
    (if SvTypeGps in types then {QSysGps} else {})
    + (if SvTypeGlonass in types then {QSysGlo} else {})
    + (if SvTypeQzss in types then {QSysQzss} else {})
    + (if SvTypeBeidou in types then {QSysBds} else {})
    + (if SvTypeGalileo in types then {QSysGal} else {})
  }

  /** The corrected mapping sends each constellation as itself and loses nothing. */
  lemma SystemsExact(types: set<SvTypeBit>)
    ensures forall t :: SystemOf(t) in Systems(types) <==> t in types
    ensures forall s :: ConstellationOf(s) in types ==> SystemOf(ConstellationOf(s)) == s
  {
    forall t ensures SystemOf(t) in Systems(types) <==> t in types {
      assert ConstellationOf(SystemOf(t)) == t;
    }
  }

  /** As written, asking to delete BeiDou data deletes Galileo data instead,
      and asking for QZSS deletes BeiDou. */
  lemma AsWrittenMisnamesSystems()
    ensures SystemsAsWritten({SvTypeBeidou}) == {QSysGal} != Systems({SvTypeBeidou}) == {QSysBds}
    ensures SystemsAsWritten({SvTypeQzss}) == {QSysBds} != Systems({SvTypeQzss}) == {QSysQzss}
    ensures SystemsAsWritten({SvTypeGalileo}) == {QSysQzss} != Systems({SvTypeGalileo}) == {QSysGal}
  {
  }

  /** The common bits the new API carries in deleteCommonDataMask. */
  const CommonDataBits: set<CommonBit> := {ComPosition, ComTime, ComUtc, ComRti, ComFreqBiasEst}

  /** The new-API request (with the corrected system mapping). */
  function NewApiRequest(d: GnssAidingData): (r: DeleteGnssServiceDataReq)
    ensures r.deleteAllFlag <==> d.deleteAll
    ensures d.deleteAll ==> r.satelliteData.None? && r.commonData.None? && r.cellDb.None?
    ensures !d.deleteAll ==>
      (r.satelliteData.Some? <==> d.svMask != {}) &&
      (r.satelliteData.Some? ==> r.satelliteData.value == SatData(d.svMask, Systems(d.svTypeMask))) &&
      (r.commonData.Some? <==> d.commonMask * CommonDataBits != {}) &&
      (r.commonData.Some? ==> r.commonData.value == d.commonMask * CommonDataBits) &&
      (r.cellDb.Some? <==> ComCellDb in d.commonMask) &&
      (r.cellDb.Some? ==> r.cellDb.value == AllCellDb)
  {
    if d.deleteAll then DeleteGnssServiceDataReq(true, None, None, None)
    else
      var common := d.commonMask * CommonDataBits;
      DeleteGnssServiceDataReq(
        false,
        if d.svMask != {} then Some(SatData(d.svMask, Systems(d.svTypeMask))) else None,
        if common != {} then Some(common) else None,
        if ComCellDb in d.commonMask then Some(AllCellDb) else None)
  }

  // ------------------------------------------------------------ legacy API

  /** SV_ID_RANGE and GPS_SV_ID_OFFSET: the legacy request names GPS SVs 1..32. */
  const SV_ID_RANGE: nat := 32
  const GPS_SV_ID_OFFSET: nat := 1

  /** QMI_LOC_MASK_DELETE_EPHEMERIS / _ALMANAC of one SV-info entry. */
  datatype SvInfoDeleteBit = DelEphemeris | DelAlmanac

  /** One entry of deleteSvInfoList. */
  datatype DeleteSvInfo = DeleteSvInfo(gnssSvId: nat, system: SvSystem, deleteMask: set<SvInfoDeleteBit>)

  /** QMI_LOC_MASK_DELETE_* bits of deleteGnssDataMask that the adapter sets. */
  datatype GnssDataBit = DelPosition | DelTime | DelIono | DelUtc | DelHealth | DelGpsSvDir | DelSaData | DelRti

  /** qmiLocDeleteAssistDataReqMsgT_v02. */
  datatype DeleteAssistDataReq = DeleteAssistDataReq(
    deleteAllFlag: bool,
    svInfoList: Option<seq<DeleteSvInfo>>,
    gnssData: Option<set<GnssDataBit>>,
    cellDb: Option<set<CellDbBit>>)

  /** The per-SV delete mask of the legacy list. */
  function SvDeleteMask(svMask: set<SvAidBit>): (m: set<SvInfoDeleteBit>)
    ensures DelEphemeris in m <==> SvEphemeris in svMask
    ensures DelAlmanac in m <==> SvAlmanac in svMask
  {
    (if SvEphemeris in svMask then {DelEphemeris} else {})
    + (if SvAlmanac in svMask then {DelAlmanac} else {})
  }

  /** The legacy list covers all GPS SVs when ephemeris or almanac is asked for GPS. */
  predicate WantsGpsSvList(d: GnssAidingData) {
    (SvEphemeris in d.svMask || SvAlmanac in d.svMask) && SvTypeGps in d.svTypeMask
  }

  /** The 32-entry GPS list: GPS SVs 1..32, each with the same delete mask. */
  function GpsSvList(svMask: set<SvAidBit>): (l: seq<DeleteSvInfo>)
    ensures |l| == SV_ID_RANGE
    ensures forall i :: 0 <= i < |l| ==>
      l[i].gnssSvId == GPS_SV_ID_OFFSET + i && l[i].system == SysGps && l[i].deleteMask == SvDeleteMask(svMask)
  {
    seq(SV_ID_RANGE, i requires 0 <= i < SV_ID_RANGE => DeleteSvInfo(GPS_SV_ID_OFFSET + i, SysGps, SvDeleteMask(svMask)))
  }

  /** The loop that fills deleteSvInfoList. */
  method FillGpsSvList(svMask: set<SvAidBit>) returns (list: seq<DeleteSvInfo>)
    ensures list == GpsSvList(svMask)
  {
    list := [];
    var svId := GPS_SV_ID_OFFSET;
    var i := 0;
    while i < SV_ID_RANGE
      invariant 0 <= i <= SV_ID_RANGE && svId == GPS_SV_ID_OFFSET + i
      invariant list == GpsSvList(svMask)[..i]
    {
      list := list + [DeleteSvInfo(svId, SysGps, SvDeleteMask(svMask))];
      i, svId := i + 1, svId + 1;
    }
  }

  const AllGnssDataBits: set<GnssDataBit> := {DelPosition, DelTime, DelIono, DelUtc, DelHealth, DelGpsSvDir, DelSaData, DelRti}

  /** Whether a deleteGnssDataMask bit is asked for: the SV-level bits only for GPS. */
  predicate LegacyBit(d: GnssAidingData, b: GnssDataBit) {
    var gps := SvTypeGps in d.svTypeMask;
    match b
    case DelPosition => ComPosition in d.commonMask
    case DelTime => ComTime in d.commonMask
    case DelIono => SvIonosphere in d.svMask && gps
    case DelUtc => ComUtc in d.commonMask
    case DelHealth => SvHealth in d.svMask && gps
    case DelGpsSvDir => SvDirection in d.svMask && gps
    case DelSaData => SvSaData in d.svMask && gps
    case DelRti => ComRti in d.commonMask
  }

  /** deleteGnssDataMask. */
  function LegacyGnssData(d: GnssAidingData): (m: set<GnssDataBit>)
    ensures DelPosition in m <==> ComPosition in d.commonMask
    ensures DelTime in m <==> ComTime in d.commonMask
    ensures DelUtc in m <==> ComUtc in d.commonMask
    ensures DelRti in m <==> ComRti in d.commonMask
    ensures DelIono in m <==> SvIonosphere in d.svMask && SvTypeGps in d.svTypeMask
    ensures DelHealth in m <==> SvHealth in d.svMask && SvTypeGps in d.svTypeMask
    ensures DelGpsSvDir in m <==> SvDirection in d.svMask && SvTypeGps in d.svTypeMask
    ensures DelSaData in m <==> SvSaData in d.svMask && SvTypeGps in d.svTypeMask
  {
    set b | b in AllGnssDataBits && LegacyBit(d, b)
  }

  /** deleteAidingData's construction of the legacy request. */
  method BuildLegacyRequest(d: GnssAidingData) returns (req: DeleteAssistDataReq)
    ensures req == LegacyRequest(d)
  {
    if d.deleteAll {
      req := DeleteAssistDataReq(true, None, None, None);
    } else {
      var svList: Option<seq<DeleteSvInfo>> := None;
      if (SvEphemeris in d.svMask || SvAlmanac in d.svMask) && SvTypeGps in d.svTypeMask {
        var list := FillGpsSvList(d.svMask);
        svList := Some(list);
      }
      var g := LegacyGnssData(d);
      req := DeleteAssistDataReq(false,
                                 svList,
                                 if g != {} then Some(g) else None,
                                 if ComCellDb in d.commonMask then Some(AllCellDb) else None);
    }
  }

  /** The legacy request. */
  function LegacyRequest(d: GnssAidingData): (r: DeleteAssistDataReq)
    ensures r.deleteAllFlag <==> d.deleteAll
    ensures d.deleteAll ==> r.svInfoList.None? && r.gnssData.None? && r.cellDb.None?
    ensures !d.deleteAll ==>
      (r.svInfoList.Some? <==> WantsGpsSvList(d)) &&
      (r.svInfoList.Some? ==> r.svInfoList.value == GpsSvList(d.svMask)) &&
      (r.gnssData.Some? <==> LegacyGnssData(d) != {}) &&
      (r.gnssData.Some? ==> r.gnssData.value == LegacyGnssData(d)) &&
      (r.cellDb.Some? <==> ComCellDb in d.commonMask) &&
      (r.cellDb.Some? ==> r.cellDb.value == AllCellDb)
  {
    if d.deleteAll then DeleteAssistDataReq(true, None, None, None)
    else
      var g := LegacyGnssData(d);
      DeleteAssistDataReq(
        false,
        if WantsGpsSvList(d) then Some(GpsSvList(d.svMask)) else None,
        if g != {} then Some(g) else None,
        if ComCellDb in d.commonMask then Some(AllCellDb) else None)
  }

  /** Two legacy gnss-data masks are equal when they agree bit by bit. */
  lemma LegacyGnssDataExt(d: GnssAidingData, e: GnssAidingData)
    requires forall b :: b in LegacyGnssData(d) <==> b in LegacyGnssData(e)
    ensures LegacyGnssData(d) == LegacyGnssData(e)
  {
  }

  /** The legacy message deletes SV data only for GPS: without the GPS bit the
      SV mask makes no difference to it. */
  lemma {:induction false} LegacyIgnoresNonGps(d: GnssAidingData, svMask: set<SvAidBit>)
    requires SvTypeGps !in d.svTypeMask
    ensures LegacyRequest(d) == LegacyRequest(d.(svMask := svMask))
  {
    var e := d.(svMask := svMask);
    LegacyGnssDataExt(d, e);
  }

  /** Steering, almanac correction, blacklist, non-existence, SV-time and
      frequency-bias requests never reach the legacy message. */
  lemma {:induction false} LegacyDropsNewOnlyBits(d: GnssAidingData, freqBias: bool)
    ensures var e := d.(svMask := d.svMask - {SvSteer, SvAlmanacCorr, SvBlacklist, SvNoExist, SvTime},
                        commonMask := if freqBias then d.commonMask + {ComFreqBiasEst} else d.commonMask - {ComFreqBiasEst});
      LegacyRequest(d) == LegacyRequest(e)
  {
    var e := d.(svMask := d.svMask - {SvSteer, SvAlmanacCorr, SvBlacklist, SvNoExist, SvTime},
                commonMask := if freqBias then d.commonMask + {ComFreqBiasEst} else d.commonMask - {ComFreqBiasEst});
    LegacyGnssDataExt(d, e);
    assert WantsGpsSvList(d) == WantsGpsSvList(e);
    assert SvDeleteMask(d.svMask) == SvDeleteMask(e.svMask);
  }

  /** The adapter falls back to the legacy message when the new one is
      unsupported or unknown to the client library. */
  predicate FallsBack(status: ClientStatus) {
    status == FailureUnsupported || status == FailureInternal
  }

  /** Both requests carry a cell-database request exactly when one is asked for,
      and always the whole database. */
  lemma CellDbAgrees(d: GnssAidingData)
    ensures NewApiRequest(d).cellDb == LegacyRequest(d).cellDb
    ensures LegacyRequest(d).cellDb.Some? ==> LegacyRequest(d).cellDb.value == AllCellDb
  {
  }
}
