// convertGnssMeasurements: one QMI-LOC SV measurement of a measurement
// report becomes one consumer GnssMeasurementsData record.

module Measurements {
  import opened Gnss
  import opened SvReport

  /** Bits of the consumer's GnssMeasurementsStateMask. */
  datatype StateBit =
    | StateUnknown
    | CodeLock
    | BitSync
    | SubframeSync
    | TowDecoded
    | GloStringSync
    | GloTodDecoded
    | BdsD2BitSync
    | BdsD2SubframeSync
    | GalE1bcCodeLock
    | GalE1c2ndCodeLock
    | GalE1bPageSync

  /** The report-level GLONASS time block that the conversion consults. */
  datatype GloTime = GloTime(valid: bool, gloFourYear: int, gloDays: int)

  /** The converted record (float fields are not modelled). */
  datatype GnssMeasurementsData = GnssMeasurementsData(
    svId: int,                 // int16_t
    svType: SvType,
    carrierFrequencyHz: int,
    hasCarrierFrequency: bool, // GNSS_MEASUREMENTS_DATA_CARRIER_FREQUENCY_BIT
    stateMask: set<StateBit>)

  /** Measurement reports name COMPASS nowhere: it falls to UNKNOWN like any other code. */
  function MeasSvType(s: SvSystem): (t: SvType)
    ensures t == TypeUnknown <==> s.SysCompass? || s.SysOther?
  {
    match s
    case SysGps => TypeGps
    case SysGalileo => TypeGalileo
    case SysSbas => TypeSbas
    case SysGlonass => TypeGlonass
    case SysBds => TypeBeidou
    case SysQzss => TypeQzss
    case _ => TypeUnknown
  }

  /** GLONASS id reported when the orbit slot is unknown (QMI id 255). */
  const GLO_UNKNOWN_OSN: int := 255

  /** The consumer id before it is stored into the int16_t field. */
  function RawSvId(s: SvSystem, m: SvMeasurement): int {
    match s
    case SysGalileo => m.gnssSvId + 1 - GAL_SV_PRN_MIN
    case SysGlonass =>
      if m.gnssSvId != GLO_UNKNOWN_OSN then m.gnssSvId + 1 - GLO_SV_PRN_MIN else m.gloFrequency + 92
    case SysBds => m.gnssSvId + 1 - BDS_SV_PRN_MIN
    case _ => m.gnssSvId
  }

  /** GLONASS is FDMA: channels 1..14 sit 562.5 kHz apart around the G1 centre. */
  function GloCarrierOffsetHz(gloFrequency: int): int {
    if 1 <= gloFrequency <= 14 then (gloFrequency - 8) * 562500 else 0
  }

  predicate GloTimeValid(t: SvType, g: GloTime) {
    t == TypeGlonass && g.valid && g.gloFourYear != 255 && g.gloDays != 65535
  }

  /** IS_BDS_GEO_SV: a BeiDou GEO satellite (D2 signal) has a consumer id in 1..5. */
  predicate IsBdsGeoSv(svId: int, t: SvType) {
    t == TypeBeidou && 1 <= svId <= 5
  }

  /** The status bits that are both set and marked valid. */
  function ValidStatus(m: SvMeasurement): set<MeasStatus> {
    m.measurementStatus * m.validMeasStatusMask
  }

  /** The Galileo code-lock bits: E1B/C code lock always, the E1C second
      code lock on measurementStatus bit 30 and the E1B page sync when
      `pageSync` holds; the status word is read unmasked by
      validMeasStatusMask here. */
  function GalileoBits(t: SvType, m: SvMeasurement, pageSync: bool): set<StateBit> {
    if t != TypeGalileo then {}
    else
      {GalE1bcCodeLock}
      + (if Status100MsValid in m.measurementStatus then {GalE1c2ndCodeLock} else {})
      + (if pageSync then {GalE1bPageSync} else {})
  }

  /** The page-sync test as intended: measurementStatus bit 31 alone. */
  predicate PageSync(st: set<MeasStatus>) {
    Status2SValid in st
  }

  /** The page-sync test as written, `status & (1 << 31)`: the int constant
      `1 << 31` is INT_MIN, which becomes 0xFFFFFFFF80000000 against the
      uint64_t status word, so any of bits 31..63 passes. */
  predicate PageSyncAsWritten(st: set<MeasStatus>) {
    Status2SValid in st || exists x :: x in st && x.OtherStatus? && 32 <= x.bit
  }

  /** The state mask: the strongest of millisecond / bit-sync / code-lock
      validities decides the tier; `gal` are the Galileo bits. */
  function StateMaskOf(t: SvType, svId: int, m: SvMeasurement, g: GloTime, gal: set<StateBit>): set<StateBit> {
    var v := ValidStatus(m);
    if MsValid in v then
      {SubframeSync, TowDecoded, BitSync, CodeLock}
      + (if GloTimeValid(t, g) then {GloStringSync, GloTodDecoded} else {})
      + gal
      + (if IsBdsGeoSv(svId, t) then {BdsD2BitSync, BdsD2SubframeSync} else {})
    else if BeConfirm in v && SbValid in v then
      {BitSync, CodeLock} + gal
    else if SmValid in v then
      {CodeLock} + gal
    else
      {StateUnknown}
  }

  /** The converted record, given the page-sync test's outcome. */
  function MeasurementRecord(s: SvSystem, m: SvMeasurement, g: GloTime, pageSync: bool): GnssMeasurementsData {
    var t := MeasSvType(s);
    var id := ToInt16(RawSvId(s, m));
    var hz := CarrierFrequencyHz(t) + (if t == TypeGlonass then GloCarrierOffsetHz(m.gloFrequency) else 0);
    GnssMeasurementsData(id, t, hz, t != TypeUnknown, StateMaskOf(t, id, m, g, GalileoBits(t, m, pageSync)))
  }

  /** convertGnssMeasurements as written: the Galileo page sync follows the
      sign-extended test of bit 31. */
  function ConvertGnssMeasurementAsWritten(s: SvSystem, m: SvMeasurement, g: GloTime): (r: GnssMeasurementsData)
    ensures GalE1bPageSync in r.stateMask <==>
      r.svType == TypeGalileo && StateUnknown !in r.stateMask && PageSyncAsWritten(m.measurementStatus)
    ensures r == ConvertGnssMeasurement(s, m, g).(stateMask := r.stateMask)
  {
    MeasurementRecord(s, m, g, PageSyncAsWritten(m.measurementStatus))
  }

  /** A Galileo entry with a valid millisecond status and only status bit 40
      set besides: the code as written reports E1B page sync, which the
      intended bit-31 test does not. */
  lemma AsWrittenPageSyncFromUpperBits(g: GloTime)
    ensures var m := SvMeasurement(301, 0, {MsValid, OtherStatus(40)}, {MsValid});
      GalE1bPageSync in ConvertGnssMeasurementAsWritten(SysGalileo, m, g).stateMask &&
      GalE1bPageSync !in ConvertGnssMeasurement(SysGalileo, m, g).stateMask
  {
    var m := SvMeasurement(301, 0, {MsValid, OtherStatus(40)}, {MsValid});
    assert OtherStatus(40) in m.measurementStatus;
    assert PageSyncAsWritten(m.measurementStatus);
  }

  /** convertGnssMeasurements for one entry of a report of constellation
      `s`, with the page-sync test of bit 31 as intended. */
  function ConvertGnssMeasurement(s: SvSystem, m: SvMeasurement, g: GloTime): (r: GnssMeasurementsData)
    ensures r.svType == MeasSvType(s)
    ensures -0x8000 <= r.svId < 0x8000
    ensures r.hasCarrierFrequency <==> r.svType != TypeUnknown
    ensures r.svType != TypeGlonass ==> r.carrierFrequencyHz == CarrierFrequencyHz(r.svType)
    ensures r.svType == TypeGlonass ==>
      1598062500 <= r.carrierFrequencyHz <= 1605375000
    // tiers, bit by bit
    ensures var v := ValidStatus(m);
      (StateUnknown in r.stateMask <==> MsValid !in v && !(BeConfirm in v && SbValid in v) && SmValid !in v)
    ensures StateUnknown in r.stateMask ==> r.stateMask == {StateUnknown}
    ensures CodeLock in r.stateMask <==> StateUnknown !in r.stateMask
    ensures var v := ValidStatus(m);
      (BitSync in r.stateMask <==> MsValid in v || (BeConfirm in v && SbValid in v))
    ensures TowDecoded in r.stateMask <==> MsValid in ValidStatus(m)
    ensures SubframeSync in r.stateMask <==> MsValid in ValidStatus(m)
    ensures GloTodDecoded in r.stateMask <==> MsValid in ValidStatus(m) && GloTimeValid(r.svType, g)
    ensures BdsD2SubframeSync in r.stateMask <==> MsValid in ValidStatus(m) && IsBdsGeoSv(r.svId, r.svType)
    ensures GalE1bcCodeLock in r.stateMask <==> r.svType == TypeGalileo && StateUnknown !in r.stateMask
    ensures GalE1c2ndCodeLock in r.stateMask <==>
      r.svType == TypeGalileo && StateUnknown !in r.stateMask && Status100MsValid in m.measurementStatus
    ensures GalE1bPageSync in r.stateMask <==>
      r.svType == TypeGalileo && StateUnknown !in r.stateMask && PageSync(m.measurementStatus)
  {
    MeasurementRecord(s, m, g, PageSync(m.measurementStatus))
  }

  /** The tiers nest as the consumer's state definitions require: a decoded
      time of week implies sub-frame sync, which implies bit sync, which
      implies code lock; the GLONASS and BeiDou extras only come with TOW. */
  lemma StateMaskNested(s: SvSystem, m: SvMeasurement, g: GloTime)
    ensures var st := ConvertGnssMeasurement(s, m, g).stateMask;
      (TowDecoded in st ==> SubframeSync in st) &&
      (SubframeSync in st ==> BitSync in st) &&
      (BitSync in st ==> CodeLock in st) &&
      (GloStringSync in st ==> TowDecoded in st) &&
      (BdsD2BitSync in st ==> TowDecoded in st) &&
      (GalE1c2ndCodeLock in st ==> GalE1bcCodeLock in st)
  {
  }

  /** In-range QMI ids come out 1-based within their constellation; with the
      orbit slot unknown a GLONASS channel number 1..14 comes out as 93..106. */
  lemma MeasurementSvIdRanges(m: SvMeasurement, g: GloTime)
    ensures 301 <= m.gnssSvId <= 336 ==> 1 <= ConvertGnssMeasurement(SysGalileo, m, g).svId <= 36
    ensures 201 <= m.gnssSvId <= 237 ==> 1 <= ConvertGnssMeasurement(SysBds, m, g).svId <= 37
    ensures 65 <= m.gnssSvId <= 88 ==> 1 <= ConvertGnssMeasurement(SysGlonass, m, g).svId <= 24
    ensures m.gnssSvId == GLO_UNKNOWN_OSN && 1 <= m.gloFrequency <= 14 ==>
      93 <= ConvertGnssMeasurement(SysGlonass, m, g).svId <= 106
    ensures 0 <= m.gnssSvId < 0x8000 ==>
      ConvertGnssMeasurement(SysQzss, m, g).svId == m.gnssSvId &&
      ConvertGnssMeasurement(SysGps, m, g).svId == m.gnssSvId
  {
  }

  /** The GLONASS carrier grows by 562.5 kHz per channel and channel 8 is the
      G1 centre; out-of-range channels get the centre frequency. */
  lemma GloCarrierChannels(m: SvMeasurement, n: SvMeasurement, g: GloTime)
    requires 1 <= m.gloFrequency < 14 && n.gloFrequency == m.gloFrequency + 1
    ensures ConvertGnssMeasurement(SysGlonass, n, g).carrierFrequencyHz
         == ConvertGnssMeasurement(SysGlonass, m, g).carrierFrequencyHz + 562500
    ensures m.gloFrequency == 8 ==> ConvertGnssMeasurement(SysGlonass, m, g).carrierFrequencyHz == 1602000000
  {
  }
}
