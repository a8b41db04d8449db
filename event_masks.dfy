// The two event-subscription masks the adapter translates between: the
// consumer-side adapter mask (LOC_API_ADAPTER_BIT_*) and the QMI-LOC
// indication mask (QMI_LOC_EVENT_MASK_*). A mask is the set of its bits.

module EventMasks {

  /** Bits of the consumer-side adapter event mask. */
  datatype AdapterEvent =
    | ParsedPositionReport
    | SatelliteReport
    | NmeaPositionReport
    | Nmea1HzReport
    | NiNotifyVerifyRequest
    | AssistanceDataRequest
    | PositionInjectionRequest
    | StatusReport
    | LocationServerRequest
    | RequestWifi
    | SensorStatus
    | RequestTimeSync
    | ReportSpi
    | ReportNiGeofence
    | GeofenceGenAlert
    | ReportGenfenceBreach
    | BatchedGenfenceBreachReport
    | PedometerCtrl
    | ReportGenfenceDwell
    | MotionCtrl
    | RequestWifiApData
    | BatchFull
    | BatchStatus
    | BatchedPositionReport
    | GnssMeasurementReport
    | GnssSvPolynomialReport
    | GdtUploadBeginReq
    | GdtUploadEndReq
    | GnssMeasurement
    | RequestTimezone
    | RequestSrnData
    | FdclServiceReq
    | OtherAdapterBit(bit: nat)   // adapter bits that have no QMI-LOC counterpart

  /** Bits of the QMI-LOC event registration mask. */
  datatype QmiEvent =
    | QPositionReport
    | QGnssSvInfo
    | QNmea
    | QNiNotifyVerifyReq
    | QInjectPredictedOrbitsReq
    | QInjectTimeReq
    | QInjectPositionReq
    | QEngineState
    | QLocationServerConnectionReq
    | QWifiReq
    | QSensorStreamingReadyStatus
    | QTimeSyncReq
    | QSetSpiStreamingReport
    | QNiGeofenceNotification
    | QGeofenceGenAlert
    | QGeofenceBreachNotification
    | QGeofenceBatchBreachNotification
    | QPedometerControl
    | QGeofenceBatchDwellNotification
    | QMotionDataControl
    | QInjectWifiApDataReq
    | QBatchFullNotification
    | QBatchingStatus
    | QLiveBatchedPositionReport
    | QGnssMeasurementReport
    | QGnssSvPolynomialReport
    | QGdtUploadBeginReq
    | QGdtUploadEndReq
    | QGetTimeZoneReq
    | QInjectSrnApDataReq
    | QFdclServiceReq

  /** Reference table: a QMI bit is wanted when one of its adapter bits is set. */
  predicate Requested(m: set<AdapterEvent>, q: QmiEvent) {
    match q
    case QPositionReport => ParsedPositionReport in m
    case QGnssSvInfo => SatelliteReport in m
    case QNmea => NmeaPositionReport in m || Nmea1HzReport in m
    case QNiNotifyVerifyReq => NiNotifyVerifyRequest in m
    case QInjectPredictedOrbitsReq => AssistanceDataRequest in m
    case QInjectTimeReq => AssistanceDataRequest in m
    case QInjectPositionReq => PositionInjectionRequest in m
    case QEngineState => StatusReport in m
    case QLocationServerConnectionReq => LocationServerRequest in m
    case QWifiReq => RequestWifi in m
    case QSensorStreamingReadyStatus => SensorStatus in m
    case QTimeSyncReq => RequestTimeSync in m
    case QSetSpiStreamingReport => ReportSpi in m
    case QNiGeofenceNotification => ReportNiGeofence in m
    case QGeofenceGenAlert => GeofenceGenAlert in m
    case QGeofenceBreachNotification => ReportGenfenceBreach in m
    case QGeofenceBatchBreachNotification => BatchedGenfenceBreachReport in m
    case QPedometerControl => PedometerCtrl in m
    case QGeofenceBatchDwellNotification => ReportGenfenceDwell in m
    case QMotionDataControl => MotionCtrl in m
    case QInjectWifiApDataReq => RequestWifiApData in m
    case QBatchFullNotification => BatchFull in m
    case QBatchingStatus => BatchStatus in m
    case QLiveBatchedPositionReport => BatchedPositionReport in m
    case QGnssMeasurementReport => GnssMeasurementReport in m || GnssMeasurement in m
    case QGnssSvPolynomialReport => GnssSvPolynomialReport in m
    case QGdtUploadBeginReq => GdtUploadBeginReq in m
    case QGdtUploadEndReq => GdtUploadEndReq in m
    case QGetTimeZoneReq => RequestTimezone in m
    case QInjectSrnApDataReq => RequestSrnData in m
    case QFdclServiceReq => FdclServiceReq in m
  }

  /** Every bit of the QMI-LOC event mask. */
  const AllQmiEvents: set<QmiEvent> :=
    {QPositionReport, QGnssSvInfo, QNmea, QNiNotifyVerifyReq,
     QInjectPredictedOrbitsReq, QInjectTimeReq, QInjectPositionReq, QEngineState,
     QLocationServerConnectionReq, QWifiReq, QSensorStreamingReadyStatus, QTimeSyncReq,
     QSetSpiStreamingReport, QNiGeofenceNotification, QGeofenceGenAlert, QGeofenceBreachNotification,
     QGeofenceBatchBreachNotification, QPedometerControl, QGeofenceBatchDwellNotification, QMotionDataControl,
     QInjectWifiApDataReq, QBatchFullNotification, QBatchingStatus, QLiveBatchedPositionReport,
     QGnssMeasurementReport, QGnssSvPolynomialReport, QGdtUploadBeginReq, QGdtUploadEndReq,
     QGetTimeZoneReq, QInjectSrnApDataReq, QFdclServiceReq}

  /** AllQmiEvents lists every constructor, so comprehensions over it are total. */
  lemma AllQmiEventsComplete(q: QmiEvent)
    ensures q in AllQmiEvents
  {
    match q
    case QPositionReport =>
    case QGnssSvInfo =>
    case QNmea =>
    case QNiNotifyVerifyReq =>
    case QInjectPredictedOrbitsReq =>
    case QInjectTimeReq =>
    case QInjectPositionReq =>
    case QEngineState =>
    case QLocationServerConnectionReq =>
    case QWifiReq =>
    case QSensorStreamingReadyStatus =>
    case QTimeSyncReq =>
    case QSetSpiStreamingReport =>
    case QNiGeofenceNotification =>
    case QGeofenceGenAlert =>
    case QGeofenceBreachNotification =>
    case QGeofenceBatchBreachNotification =>
    case QPedometerControl =>
    case QGeofenceBatchDwellNotification =>
    case QMotionDataControl =>
    case QInjectWifiApDataReq =>
    case QBatchFullNotification =>
    case QBatchingStatus =>
    case QLiveBatchedPositionReport =>
    case QGnssMeasurementReport =>
    case QGnssSvPolynomialReport =>
    case QGdtUploadBeginReq =>
    case QGdtUploadEndReq =>
    case QGetTimeZoneReq =>
    case QInjectSrnApDataReq =>
    case QFdclServiceReq =>
  }

  /** convertMask: a QMI bit is set exactly when one of its adapter bits is. */
  function ConvertMask(m: set<AdapterEvent>): (q: set<QmiEvent>)
    ensures forall e: QmiEvent :: e in q <==> Requested(m, e)
  {
    forall e: QmiEvent ensures e in AllQmiEvents { AllQmiEventsComplete(e); }
    set e <- AllQmiEvents | Requested(m, e)
  }

  /** The tracking indications that are only wanted while a session runs. */
  const TrackingEvents: set<QmiEvent> :=
    {QPositionReport, QGnssSvInfo, QNmea, QEngineState, QGnssMeasurementReport}

  /** adjustMaskIfNoSession: outside a session the tracking bits are cleared,
      every other bit is kept; inside a session the mask is unchanged. */
  function AdjustMaskIfNoSession(q: set<QmiEvent>, inSession: bool): (r: set<QmiEvent>)
    ensures inSession ==> r == q
    ensures r <= q
    ensures forall e :: e in q && e !in r ==> !inSession && e in TrackingEvents
    ensures !inSession ==> r * TrackingEvents == {}
  {
    if inSession then q else q - TrackingEvents
  }

  /** The effective mask the adapter registers for an adapter mask. */
  function EffectiveMask(m: set<AdapterEvent>, inSession: bool): set<QmiEvent> {
    AdjustMaskIfNoSession(ConvertMask(m), inSession)
  }

  /** convertMask distributes over the union of adapter masks. */
  lemma ConvertMaskUnion(a: set<AdapterEvent>, b: set<AdapterEvent>)
    ensures ConvertMask(a + b) == ConvertMask(a) + ConvertMask(b)
  {
    forall e: QmiEvent
      ensures e in ConvertMask(a + b) <==> e in ConvertMask(a) + ConvertMask(b)
    {
    }
  }

  /** The mask of one adapter bit is the set of QMI bits it requests. */
  lemma SingleBitMask(b: AdapterEvent, expected: set<QmiEvent>)
    requires forall e: QmiEvent :: e in expected <==> Requested({b}, e)
    ensures ConvertMask({b}) == expected
  {
  }

  /** Bits that share one QMI indication: the two NMEA bits, the two
      measurement bits; the assistance-data bit asks for two indications. */
  lemma ConvertMaskAliases()
    ensures ConvertMask({Nmea1HzReport}) == ConvertMask({NmeaPositionReport}) == {QNmea}
    ensures ConvertMask({GnssMeasurement}) == ConvertMask({GnssMeasurementReport}) == {QGnssMeasurementReport}
    ensures ConvertMask({AssistanceDataRequest}) == {QInjectPredictedOrbitsReq, QInjectTimeReq}
  {
    SingleBitMask(Nmea1HzReport, {QNmea});
    SingleBitMask(NmeaPositionReport, {QNmea});
    SingleBitMask(GnssMeasurement, {QGnssMeasurementReport});
    SingleBitMask(GnssMeasurementReport, {QGnssMeasurementReport});
    SingleBitMask(AssistanceDataRequest, {QInjectPredictedOrbitsReq, QInjectTimeReq});
  }

  /** Adapter bits without a QMI counterpart change nothing. */
  lemma ConvertMaskIgnoresUnmapped(m: set<AdapterEvent>, n: nat)
    ensures ConvertMask(m + {OtherAdapterBit(n)}) == ConvertMask(m)
  {
    forall e: QmiEvent
      ensures e in ConvertMask(m + {OtherAdapterBit(n)}) <==> e in ConvertMask(m)
    {
    }
  }

  /** Adjusting is idempotent, and entering a session never removes bits. */
  lemma AdjustIdempotent(q: set<QmiEvent>, inSession: bool)
    ensures AdjustMaskIfNoSession(AdjustMaskIfNoSession(q, inSession), inSession)
         == AdjustMaskIfNoSession(q, inSession)
    ensures AdjustMaskIfNoSession(q, false) <= AdjustMaskIfNoSession(q, true)
  {
  }

  /** Outside a session exactly the five tracking indications are dropped from
      the effective mask: a status-report subscriber gets no ENGINE_STATE. */
  lemma NoSessionDropsTracking(m: set<AdapterEvent>)
    ensures QPositionReport !in EffectiveMask(m, false)
    ensures QGnssSvInfo !in EffectiveMask(m, false)
    ensures QNmea !in EffectiveMask(m, false)
    ensures QEngineState !in EffectiveMask(m, false)
    ensures QGnssMeasurementReport !in EffectiveMask(m, false)
    ensures NiNotifyVerifyRequest in m ==> QNiNotifyVerifyReq in EffectiveMask(m, false)
    ensures AssistanceDataRequest in m ==>
      QInjectPredictedOrbitsReq in EffectiveMask(m, false) && QInjectTimeReq in EffectiveMask(m, false)
  {
  }

  /** An empty adapter mask asks for no indication at all. */
  lemma EffectiveMaskEmpty(inSession: bool)
    ensures EffectiveMask({}, inSession) == {}
  {
    forall e: QmiEvent ensures e !in ConvertMask({}) {
      assert !Requested({}, e);
    }
  }
}
