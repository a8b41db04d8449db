// Satellite reports: the SV-status list (reportSv), the raw SV measurement
// list (reportSvMeasurement) and the SV polynomial (reportSvPolynomial).

module SvReport {
  import opened Gnss
  import opened Status

  // ---------------------------------------------------------------- reportSv

  /** Validity bits of a QMI-LOC SV-info record. */
  datatype SvInfoValid = ValidSystem | ValidGnssSvId | ValidSnr | ValidElevation | ValidAzimuth | ValidSvInfoMask

  /** Bits of a QMI-LOC SV-info record's svInfoMask. */
  datatype SvInfoFlag = HasEphemeris | HasAlmanac

  /** One entry of the QMI-LOC SV-info list (SNR, elevation and azimuth are
      floats copied through unchanged and are not modelled). */
  datatype SvInfo = SvInfo(validMask: set<SvInfoValid>, system: SvSystem, gnssSvId: int, svInfoMask: set<SvInfoFlag>)

  /** Bits of the consumer's GnssSvOptionsMask. */
  datatype SvOption = OptHasCarrierFrequency | OptHasEphemeris | OptHasAlmanac

  /** One entry of the consumer's SV notification. */
  datatype GnssSv = GnssSv(svId: int, svType: SvType, carrierFrequencyHz: int, options: set<SvOption>)

  /** An entry is reported when its system and id are valid and the id is not 0. */
  predicate Reportable(info: SvInfo) {
    ValidSystem in info.validMask && ValidGnssSvId in info.validMask && info.gnssSvId != 0
  }

  /** Consumer constellation of a QMI-LOC system; COMPASS and unknown codes are UNKNOWN. */
  function SvTypeOf(s: SvSystem): SvType {
    match s
    case SysGps => TypeGps
    case SysGalileo => TypeGalileo
    case SysSbas => TypeSbas
    case SysGlonass => TypeGlonass
    case SysBds => TypeBeidou
    case SysQzss => TypeQzss
    case _ => TypeUnknown
  }

  /** Offset the SV report subtracts from a QMI-LOC id, per consumer constellation. */
  function SvIdOffset(t: SvType): int {
    match t
    case TypeGalileo => 300
    case TypeBeidou => 200
    case TypeQzss => 192
    case _ => 0
  }

  /** The per-entry conversion of reportSv. */
  function ConvertSv(info: SvInfo): (sv: GnssSv)
    ensures sv.svType == SvTypeOf(info.system)
    ensures 0 <= sv.svId < TWO_16
    ensures sv.carrierFrequencyHz == CarrierFrequencyHz(sv.svType)
    ensures (OptHasCarrierFrequency in sv.options) <==> sv.svType != TypeUnknown
    ensures (OptHasEphemeris in sv.options) <==> ValidSvInfoMask in info.validMask && HasEphemeris in info.svInfoMask
    ensures (OptHasAlmanac in sv.options) <==> ValidSvInfoMask in info.validMask && HasAlmanac in info.svInfoMask
  {
    var t := SvTypeOf(info.system);
    var base: set<SvOption> := if t == TypeUnknown then {} else {OptHasCarrierFrequency};
    var eph: set<SvOption> :=
      if ValidSvInfoMask in info.validMask && HasEphemeris in info.svInfoMask then {OptHasEphemeris} else {};
    var alm: set<SvOption> :=
      if ValidSvInfoMask in info.validMask && HasAlmanac in info.svInfoMask then {OptHasAlmanac} else {};
    GnssSv(ToUint16(info.gnssSvId - SvIdOffset(t)), t, CarrierFrequencyHz(t), base + eph + alm)
  }

  /** Reference inverse: the QMI-LOC id a consumer entry stands for. */
  function QmiSvIdOf(sv: GnssSv): int {
    sv.svId + SvIdOffset(sv.svType)
  }

  /** For an id in its constellation's QMI-LOC range, the reported id is
      1-based within the constellation and adding the offset back recovers it. */
  lemma ConvertSvRoundTrip(info: SvInfo)
    requires SvIdOffset(SvTypeOf(info.system)) < info.gnssSvId < TWO_16
    ensures 1 <= ConvertSv(info).svId
    ensures QmiSvIdOf(ConvertSv(info)) == info.gnssSvId
  {
  }

  /** Galileo, BeiDou and QZSS ids are shifted down by 300, 200 and 192. */
  lemma ConvertSvOffsets(info: SvInfo)
    requires 300 < info.gnssSvId < TWO_16
    ensures info.system == SysGalileo ==> ConvertSv(info).svId == info.gnssSvId - 300
    ensures info.system == SysBds ==> ConvertSv(info).svId == info.gnssSvId - 200
    ensures info.system == SysQzss ==> ConvertSv(info).svId == info.gnssSvId - 192
    ensures info.system in {SysGps, SysSbas, SysGlonass} ==> ConvertSv(info).svId == info.gnssSvId
  {
  }

  /** The entries reportSv emits for a list, in order. */
  function Emitted(list: seq<SvInfo>): (out: seq<GnssSv>)
    ensures |out| <= |list|
  {
    if list == [] then []
    else
      var last := list[|list| - 1];
      Emitted(list[..|list| - 1]) + (if Reportable(last) then [ConvertSv(last)] else [])
  }

  /** How many entries of the list reportSv looks at. */
  function ScanLength(svListValid: bool, len: nat): (n: nat)
    ensures n <= len && n <= GNSS_SV_MAX
    ensures svListValid && len <= GNSS_SV_MAX ==> n == len
  {
    if !svListValid then 0 else if len > GNSS_SV_MAX then GNSS_SV_MAX else len
  }

  /** reportSv: scans at most GNSS_SV_MAX entries and appends one consumer
      entry per reportable one; `count` is the length of the result. */
  method ReportSv(svListValid: bool, svList: seq<SvInfo>) returns (svs: seq<GnssSv>)
    ensures svs == Emitted(svList[..ScanLength(svListValid, |svList|)])
    ensures |svs| <= GNSS_SV_MAX
  {
    svs := [];
    var n := ScanLength(svListValid, |svList|);
    var i := 0;
    while i < n
      invariant 0 <= i <= n
      invariant svs == Emitted(svList[..i])
    {
      assert svList[..i + 1][..i] == svList[..i];
      if Reportable(svList[i]) {
        svs := svs + [ConvertSv(svList[i])];
      }
      i := i + 1;
    }
  }

  /** Every emitted entry is the conversion of some reportable input entry,
      and every reportable input entry is emitted. */
  lemma {:induction false} EmittedExactly(list: seq<SvInfo>, sv: GnssSv)
    ensures sv in Emitted(list) <==> exists j :: 0 <= j < |list| && Reportable(list[j]) && ConvertSv(list[j]) == sv
  {
    if list != [] {
      var init := list[..|list| - 1];
      EmittedExactly(init, sv);
      if sv in Emitted(list) && sv !in Emitted(init) {
        assert Reportable(list[|list| - 1]) && ConvertSv(list[|list| - 1]) == sv;
      }
      if exists j :: 0 <= j < |list| && Reportable(list[j]) && ConvertSv(list[j]) == sv {
        var j :| 0 <= j < |list| && Reportable(list[j]) && ConvertSv(list[j]) == sv;
        if j < |list| - 1 {
          assert init[j] == list[j];
        }
      }
    }
  }

  /** The count equals the number of reportable entries. */
  function CountReportable(list: seq<SvInfo>): nat {
    if list == [] then 0
    else CountReportable(list[..|list| - 1]) + (if Reportable(list[|list| - 1]) then 1 else 0)
  }

  lemma {:induction false} EmittedCount(list: seq<SvInfo>)
    ensures |Emitted(list)| == CountReportable(list)
  {
    if list != [] {
      EmittedCount(list[..|list| - 1]);
    }
  }

  // ----------------------------------------------------- reportSvMeasurement

  /** Bits of a QMI-LOC measurementStatus word that the adapter interprets. */
  datatype MeasStatus =
    | SmValid | SbValid | MsValid | BeConfirm
    | Status100MsValid   // bit 30
    | Status2SValid      // bit 31
    | OtherStatus(bit: OtherBit) // any other bit position, 32..63 included

  /** A status bit position that none of the named constructors stands for,
      so that no bit has two spellings. */
  type OtherBit = b: nat | 4 <= b < 64 && b != 30 && b != 31 witness 4

  /** One QMI-LOC SV measurement (the float fields are copied through and
      are not modelled). */
  datatype SvMeasurement = SvMeasurement(
    gnssSvId: int,
    gloFrequency: int,
    measurementStatus: set<MeasStatus>,
    validMeasStatusMask: set<MeasStatus>)

  /** reportSvMeasurement copies an entry when its id and status are both nonzero. */
  predicate MeasurementFilled(m: SvMeasurement) {
    m.gnssSvId != 0 && m.measurementStatus != {}
  }

  /** A status bit that survives the uint32_t cast of the status word. */
  predicate InLowWord(st: MeasStatus) {
    !(st.OtherStatus? && st.bit >= 32)
  }

  /** What reportSvMeasurement stores for a filled entry: the id and the
      GLONASS frequency as they are, the status word cast to uint32_t, and
      the validity mask left at the memset zero, since it is never copied. */
  function Copied(m: SvMeasurement): (c: SvMeasurement)
    ensures c.gnssSvId == m.gnssSvId && c.gloFrequency == m.gloFrequency
    ensures c.measurementStatus <= m.measurementStatus
    ensures forall st :: st in m.measurementStatus && InLowWord(st) ==> st in c.measurementStatus
    ensures forall st :: st in c.measurementStatus ==> InLowWord(st)
    ensures c.validMeasStatusMask == {}
  {
    m.(measurementStatus := (set st | st in m.measurementStatus && InLowWord(st)), validMeasStatusMask := {})
  }

  /** The filled test reads the whole 64-bit word, but the copy keeps only
      its low half: an entry whose only status bit is 40 is counted, and
      stored with no status at all. */
  lemma FilledButCopiedEmpty()
    ensures var m := SvMeasurement(5, 0, {OtherStatus(40)}, {SmValid});
      MeasurementFilled(m) && Copied(m).measurementStatus == {} && Copied(m).validMeasStatusMask == {}
  {
    var m := SvMeasurement(5, 0, {OtherStatus(40)}, {SmValid});
    assert OtherStatus(40) in m.measurementStatus;
    assert !InLowWord(OtherStatus(40));
  }

  /** Copying an entry a second time changes nothing more. */
  lemma CopiedIdempotent(m: SvMeasurement)
    ensures Copied(Copied(m)) == Copied(m)
  {
    assert Copied(Copied(m)).measurementStatus == Copied(m).measurementStatus;
  }

  function CountFilled(list: seq<SvMeasurement>): (n: nat)
    ensures n <= |list|
  {
    if list == [] then 0
    else CountFilled(list[..|list| - 1]) + (if MeasurementFilled(list[|list| - 1]) then 1 else 0)
  }

  /** The slot array as written: the copy of entry i lands in slot i, unfilled slots stay empty. */
  function SlotsAsWritten(list: seq<SvMeasurement>): (slots: seq<Option<SvMeasurement>>)
    ensures |slots| == |list|
    ensures forall i :: 0 <= i < |list| ==> slots[i] == (if MeasurementFilled(list[i]) then Some(Copied(list[i])) else None)
  {
    seq(|list|, i requires 0 <= i < |list| => if MeasurementFilled(list[i]) then Some(Copied(list[i])) else None)
  }

  /** reportSvMeasurement as written: it walks every input entry, writes the
      filled ones at their input position and sets numSvs to the number of
      filled entries. */
  method ReportSvMeasurementAsWritten(svMeasurementValid: bool, list: seq<SvMeasurement>)
    returns (slots: seq<Option<SvMeasurement>>, numSvs: nat)
    ensures svMeasurementValid ==> slots == SlotsAsWritten(list) && numSvs == CountFilled(list)
    ensures !svMeasurementValid ==> slots == [] && numSvs == 0
  {
    slots, numSvs := [], 0;
    if svMeasurementValid {
      var i := 0;
      while i < |list|
        invariant 0 <= i <= |list|
        invariant slots == SlotsAsWritten(list[..i])
        invariant numSvs == CountFilled(list[..i])
      {
        assert list[..i + 1][..i] == list[..i];
        if MeasurementFilled(list[i]) {
          slots := slots + [Some(Copied(list[i]))];
          numSvs := numSvs + 1;
        } else {
          slots := slots + [None];
        }
        i := i + 1;
      }
      assert list[..|list|] == list;
    }
  }

  /** With an unfilled entry first and a filled one second, numSvs is 1 but the
      one slot a consumer reads is empty and the filled entry sits past numSvs. */
  lemma AsWrittenHidesMeasurement(a: SvMeasurement, b: SvMeasurement)
    requires !MeasurementFilled(a) && MeasurementFilled(b)
    ensures CountFilled([a, b]) == 1
    ensures SlotsAsWritten([a, b])[0] == None
    ensures SlotsAsWritten([a, b])[1] == Some(Copied(b))
  {
    assert [a, b][..1] == [a];
    assert [a][..0] == [];
  }

  /** The copies of the filled entries, in order: the list a consumer should see. */
  function Filled(list: seq<SvMeasurement>): (out: seq<SvMeasurement>)
    ensures |out| == CountFilled(list)
    ensures forall m :: m in out ==> exists x :: x in list && MeasurementFilled(x) && m == Copied(x)
  {
    if list == [] then []
    else
      var last := list[|list| - 1];
      Filled(list[..|list| - 1]) + (if MeasurementFilled(last) then [Copied(last)] else [])
  }

  /** reportSvMeasurement with the list compacted, so that the first numSvs
      slots hold exactly the filled entries. */
  method ReportSvMeasurement(svMeasurementValid: bool, list: seq<SvMeasurement>)
    returns (meas: seq<SvMeasurement>, numSvs: nat)
    ensures numSvs == |meas|
    ensures svMeasurementValid ==> meas == Filled(list) && numSvs == CountFilled(list)
    ensures !svMeasurementValid ==> meas == []
  {
    meas := [];
    if svMeasurementValid {
      var i := 0;
      while i < |list|
        invariant 0 <= i <= |list|
        invariant meas == Filled(list[..i])
      {
        assert list[..i + 1][..i] == list[..i];
        if MeasurementFilled(list[i]) {
          meas := meas + [Copied(list[i])];
        }
        i := i + 1;
      }
      assert list[..|list|] == list;
    }
    numSvs := |meas|;
  }

  /** The copy of every filled input entry reaches the compacted list. */
  lemma {:induction false} FilledComplete(list: seq<SvMeasurement>, j: nat)
    requires j < |list| && MeasurementFilled(list[j])
    ensures Copied(list[j]) in Filled(list)
  {
    var init := list[..|list| - 1];
    if j < |list| - 1 {
      assert init[j] == list[j];
      FilledComplete(init, j);
    }
  }

  // ------------------------------------------------------ reportSvPolynomial

  /** The optional fields of a QMI-LOC SV polynomial indication. */
  datatype PolyField =
    | FGloFrequency | FIode | FSvPosUnc | FSvPolyFlag | FPolyCoeffXyz0 | FPolyCoefXyzN
    | FPolyCoefClockBias | FIonoDot | FIonoDelay | FSbasIonoDot | FSbasIonoDelay
    | FTropoDelay | FElevation | FElevationDot | FElevationUnc | FVelCoef | FEnhancedIod

  /** Bits of the consumer polynomial's is_valid mask. */
  datatype PolyBit =
    | BGloFreq | BIode | BSvPosUnc | BFlag | BPolyCoeffXyz0 | BPolyCoeffXyzN
    | BPolyCoeffOther | BIonoDot | BIonoDelay | BSbasIonoDot | BSbasIonoDelay
    | BTropoDelay | BElevation | BElevationDot | BElevationUnc | BVeloCoeff | BEnhancedIod

  function BitOf(f: PolyField): PolyBit {
    match f
    case FGloFrequency => BGloFreq
    case FIode => BIode
    case FSvPosUnc => BSvPosUnc
    case FSvPolyFlag => BFlag
    case FPolyCoeffXyz0 => BPolyCoeffXyz0
    case FPolyCoefXyzN => BPolyCoeffXyzN
    case FPolyCoefClockBias => BPolyCoeffOther
    case FIonoDot => BIonoDot
    case FIonoDelay => BIonoDelay
    case FSbasIonoDot => BSbasIonoDot
    case FSbasIonoDelay => BSbasIonoDelay
    case FTropoDelay => BTropoDelay
    case FElevation => BElevation
    case FElevationDot => BElevationDot
    case FElevationUnc => BElevationUnc
    case FVelCoef => BVeloCoeff
    case FEnhancedIod => BEnhancedIod
  }

  /** Reference inverse of BitOf. */
  function FieldOf(b: PolyBit): PolyField {
    match b
    case BGloFreq => FGloFrequency
    case BIode => FIode
    case BSvPosUnc => FSvPosUnc
    case BFlag => FSvPolyFlag
    case BPolyCoeffXyz0 => FPolyCoeffXyz0
    case BPolyCoeffXyzN => FPolyCoefXyzN
    case BPolyCoeffOther => FPolyCoefClockBias
    case BIonoDot => FIonoDot
    case BIonoDelay => FIonoDelay
    case BSbasIonoDot => FSbasIonoDot
    case BSbasIonoDelay => FSbasIonoDelay
    case BTropoDelay => FTropoDelay
    case BElevation => FElevation
    case BElevationDot => FElevationDot
    case BElevationUnc => FElevationUnc
    case BVeloCoeff => FVelCoef
    case BEnhancedIod => FEnhancedIod
  }

  datatype SvPolyInd = SvPolyInd(gnssSvId: int, validFields: set<PolyField>)

  datatype SvPolynomial = SvPolynomial(gnssSvId: int, isValid: set<PolyBit>)

  /** reportSvPolynomial: nothing is reported for id 0; otherwise each valid
      optional field sets its own is_valid bit and no other bit is set. */
  function ReportSvPolynomial(ind: SvPolyInd): (r: Option<SvPolynomial>)
    ensures r.Some? <==> ind.gnssSvId != 0
    ensures r.Some? ==> r.value.gnssSvId == ind.gnssSvId
    ensures r.Some? ==> forall b :: b in r.value.isValid <==> FieldOf(b) in ind.validFields
  {
    if ind.gnssSvId == 0 then None
    else
      var bits := set f | f in ind.validFields :: BitOf(f);
      assert forall b :: b in bits <==> FieldOf(b) in ind.validFields by {
        forall b ensures b in bits <==> FieldOf(b) in ind.validFields {
          assert BitOf(FieldOf(b)) == b;
        }
        forall f | f in ind.validFields ensures FieldOf(BitOf(f)) == f { }
      }
      Some(SvPolynomial(ind.gnssSvId, bits))
  }
}
