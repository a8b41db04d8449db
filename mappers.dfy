// The enumeration and mask translations of the adapter and the request
// payloads it builds before handing them to the QMI-LOC client library.

module Mappers {
  import opened Status

  // ------------------------------------------------------------- GPS lock

  /** The consumer's GPS lock configuration (GnssConfigGpsLock). */
  datatype GpsLock = LockNone | LockMo | LockNi | LockMoAndNi | LockOther(code: int)

  /** The QMI-LOC engine lock (qmiLocLockEnumT): MI = mobile-initiated, MT = mobile-terminated. */
  datatype QmiLock = QLockNone | QLockMi | QLockMt | QLockAll

  /** convertGpsLockMask: MO locks mobile-initiated sessions, NI locks
      network-initiated (mobile-terminated) ones; anything else is no lock. */
  function ConvertGpsLockMask(lock: GpsLock): (q: QmiLock)
    ensures q == QLockAll <==> lock == LockMoAndNi
    ensures q == QLockMi <==> lock == LockMo
    ensures q == QLockMt <==> lock == LockNi
    ensures q == QLockNone <==> lock == LockNone || lock.LockOther?
  {
    match lock
    case LockMoAndNi => QLockAll
    case LockMo => QLockMi
    case LockNi => QLockMt
    case _ => QLockNone
  }

  /** Reference inverse of ConvertGpsLockMask. */
  function GpsLockOf(q: QmiLock): GpsLock {
    match q
    case QLockNone => LockNone
    case QLockMi => LockMo
    case QLockMt => LockNi
    case QLockAll => LockMoAndNi
  }

  lemma GpsLockRoundTrip(lock: GpsLock, q: QmiLock)
    ensures !lock.LockOther? ==> GpsLockOf(ConvertGpsLockMask(lock)) == lock
    ensures ConvertGpsLockMask(GpsLockOf(q)) == q
  {
  }

  // ---------------------------------------------------------- NI encoding

  /** QMI-LOC data coding scheme of a network-initiated request. */
  datatype NiDataCoding = SuplUtf8 | SuplUcs2 | SuplGsmDefault | SsLanguageUnspec | CodingOther(code: int)

  datatype NiEncoding = EncodingNone | EncodingUtf8 | EncodingUcs2 | EncodingGsmDefault

  /** convertNiEncoding: the SUPL codes map one to one, an unspecified SS
      language is GSM default, everything else has no encoding. */
  function ConvertNiEncoding(c: NiDataCoding): (e: NiEncoding)
    ensures e == EncodingNone <==> c.CodingOther?
    ensures e == EncodingGsmDefault <==> c == SuplGsmDefault || c == SsLanguageUnspec
    ensures e == EncodingUtf8 <==> c == SuplUtf8
    ensures e == EncodingUcs2 <==> c == SuplUcs2
  {
    match c
    case SuplUtf8 => EncodingUtf8
    case SuplUcs2 => EncodingUcs2
    case SuplGsmDefault => EncodingGsmDefault
    case SsLanguageUnspec => EncodingGsmDefault
    case CodingOther(_) => EncodingNone
  }

  // ----------------------------------------------------- NI notify/verify

  /** QMI-LOC notification/verification privacy type. */
  datatype NiNotifyVerify =
    | NoNotifyNoVerify | NotifyOnly | NotifyVerifyAllowNoResp | NotifyVerifyNotAllowNoResp
    | PrivacyOverride | NotifyOther(code: int)

  datatype NiOption = NiNotification | NiVerification | NiPrivacyOverride

  /** The consumer's answer to an NI request (GnssNiResponse). */
  datatype NiResponse = NiAccept | NiDeny | NiNoResponse | NiResponseOther(code: int)

  /** What convertNiNotifyVerifyType writes into the notification: the
      options mask, and the timeout response when it sets one. */
  datatype NiPrivacy = NiPrivacy(options: set<NiOption>, timeoutResponse: Option<NiResponse>)

  /** convertNiNotifyVerifyType; None stands for the `false` return of an unknown type. */
  function ConvertNiNotifyVerifyType(t: NiNotifyVerify): (r: Option<NiPrivacy>)
    ensures r.None? <==> t.NotifyOther?
    ensures r.Some? ==> (NiVerification in r.value.options <==> r.value.timeoutResponse.Some?)
    ensures r.Some? ==> (NiVerification in r.value.options ==> NiNotification in r.value.options)
    ensures r.Some? ==> (NiPrivacyOverride in r.value.options <==> t == PrivacyOverride)
    ensures r.Some? && r.value.timeoutResponse.Some? ==>
      (r.value.timeoutResponse.value == NiAccept <==> t == NotifyVerifyAllowNoResp)
    ensures r.Some? ==> (r.value.options == {} <==> t == NoNotifyNoVerify)
  {
    match t
    case NoNotifyNoVerify => Some(NiPrivacy({}, None))
    case NotifyOnly => Some(NiPrivacy({NiNotification}, None))
    case NotifyVerifyAllowNoResp => Some(NiPrivacy({NiNotification, NiVerification}, Some(NiAccept)))
    case NotifyVerifyNotAllowNoResp => Some(NiPrivacy({NiNotification, NiVerification}, Some(NiDeny)))
    case PrivacyOverride => Some(NiPrivacy({NiPrivacyOverride}, None))
    case NotifyOther(_) => None
  }

  /** The QMI-LOC user response of informNiResponse. */
  datatype QmiNiUserResp = UserRespAccept | UserRespDeny | UserRespNoResp

  /** informNiResponse's mapping; None is the INVALID_PARAMETER return taken
      before anything is sent. */
  function NiUserResp(r: NiResponse): (q: Option<QmiNiUserResp>)
    ensures q.None? <==> r.NiResponseOther?
    ensures q.Some? ==> NiResponseOf(q.value) == r
  {
    match r
    case NiAccept => Some(UserRespAccept)
    case NiDeny => Some(UserRespDeny)
    case NiNoResponse => Some(UserRespNoResp)
    case NiResponseOther(_) => None
  }

  /** Reference inverse of NiUserResp. */
  function NiResponseOf(q: QmiNiUserResp): NiResponse {
    match q
    case UserRespAccept => NiAccept
    case UserRespDeny => NiDeny
    case UserRespNoResp => NiNoResponse
  }

  // ------------------------------------------ position technology masks

  /** Bits of a QMI-LOC position technology mask. */
  datatype QmiPosTech =
    | QTechSatellite | QTechCellId | QTechWifi | QTechSensors | QTechReferenceLocation
    | QTechInjectedCoarsePosition | QTechAflt | QTechHybrid | QTechOther(bit: nat)

  /** Bits of the consumer's LocPosTechMask. */
  datatype PosTech =
    | TechSatellite | TechCellId | TechWifi | TechSensors | TechReferenceLocation
    | TechInjectedCoarsePosition | TechAflt | TechHybrid

  /** The QMI-LOC bit each consumer bit is read from. */
  function QmiTechOf(t: PosTech): QmiPosTech {
    match t
    case TechSatellite => QTechSatellite
    case TechCellId => QTechCellId
    case TechWifi => QTechWifi
    case TechSensors => QTechSensors
    case TechReferenceLocation => QTechReferenceLocation
    case TechInjectedCoarsePosition => QTechInjectedCoarsePosition
    case TechAflt => QTechAflt
    case TechHybrid => QTechHybrid
  }

  const AllPosTech: set<PosTech> :=
    {TechSatellite, TechCellId, TechWifi, TechSensors, TechReferenceLocation,
     TechInjectedCoarsePosition, TechAflt, TechHybrid}

  lemma AllPosTechComplete(t: PosTech)
    ensures t in AllPosTech
  {
  }

  /** convertPosTechMask: starting from the empty default mask, each known
      QMI-LOC bit sets its consumer bit; unknown bits are dropped. */
  function ConvertPosTechMask(m: set<QmiPosTech>): (r: set<PosTech>)
    ensures forall t: PosTech :: t in r <==> QmiTechOf(t) in m
    ensures m == {} ==> r == {}
  {
    forall t: PosTech ensures t in AllPosTech { AllPosTechComplete(t); }
    set t <- AllPosTech | QmiTechOf(t) in m
  }

  /** Distinct consumer bits come from distinct QMI-LOC bits, so the
      translation loses nothing but unknown bits. */
  lemma ConvertPosTechMaskExact(m: set<QmiPosTech>, n: set<QmiPosTech>)
    requires forall q :: q in m ==> !q.QTechOther?
    requires forall q :: q in n ==> !q.QTechOther?
    requires ConvertPosTechMask(m) == ConvertPosTechMask(n)
    ensures m == n
  {
    forall q | q in m ensures q in n {
      var t := TechOfQmi(q);
      assert QmiTechOf(t) == q;
      assert t in ConvertPosTechMask(m);
    }
    forall q | q in n ensures q in m {
      var t := TechOfQmi(q);
      assert QmiTechOf(t) == q;
      assert t in ConvertPosTechMask(n);
    }
  }

  /** The consumer bit of a known QMI-LOC bit. */
  function TechOfQmi(q: QmiPosTech): (t: PosTech)
    requires !q.QTechOther?
    ensures QmiTechOf(t) == q
  {
    match q
    case QTechSatellite => TechSatellite
    case QTechCellId => TechCellId
    case QTechWifi => TechWifi
    case QTechSensors => TechSensors
    case QTechReferenceLocation => TechReferenceLocation
    case QTechInjectedCoarsePosition => TechInjectedCoarsePosition
    case QTechAflt => TechAflt
    case QTechHybrid => TechHybrid
  }

  // -------------------------------------------- navigation solution masks

  // The navigation-solution masks are written as sets of bit numbers so that
  // bits of different enumerations can be compared. Bit numbers are those of
  // the QMI-LOC and gps_extended headers.
  const NAV_SBAS_CORRECTION_IONO: nat := 0
  const NAV_SBAS_CORRECTION_FAST: nat := 1
  const NAV_SBAS_CORRECTION_LONG: nat := 2
  const NAV_SBAS_INTEGRITY: nat := 3
  /** QMI_LOC_POS_TECH_MASK_WIFI and LOC_POS_TECH_MASK_WIFI: both bit 2. */
  const POS_TECH_WIFI: nat := 2

  /** convertNavSolutionMask, test by test, including the test of the
      position-technology WIFI bit against the navigation mask. */
  function ConvertNavSolutionMask(m: set<nat>): (r: set<nat>)
    ensures forall b :: b in r <==> b in m && b <= NAV_SBAS_INTEGRITY
  {
    (if NAV_SBAS_CORRECTION_IONO in m then {NAV_SBAS_CORRECTION_IONO} else {})
    + (if NAV_SBAS_CORRECTION_FAST in m then {NAV_SBAS_CORRECTION_FAST} else {})
    + (if POS_TECH_WIFI in m then {POS_TECH_WIFI} else {})
    + (if NAV_SBAS_CORRECTION_LONG in m then {NAV_SBAS_CORRECTION_LONG} else {})
    + (if NAV_SBAS_INTEGRITY in m then {NAV_SBAS_INTEGRITY} else {})
  }

  /** The WIFI test reads and writes the SBAS long-term-correction bit, so it
      changes nothing: the mask is the same without it. */
  lemma NavWifiTestRedundant(m: set<nat>)
    ensures ConvertNavSolutionMask(m) ==
      (if NAV_SBAS_CORRECTION_IONO in m then {NAV_SBAS_CORRECTION_IONO} else {})
      + (if NAV_SBAS_CORRECTION_FAST in m then {NAV_SBAS_CORRECTION_FAST} else {})
      + (if NAV_SBAS_CORRECTION_LONG in m then {NAV_SBAS_CORRECTION_LONG} else {})
      + (if NAV_SBAS_INTEGRITY in m then {NAV_SBAS_INTEGRITY} else {})
  {
  }

  // ------------------------------------------------ protocol configuration

  datatype SuplVersion = Supl100 | Supl200 | Supl202 | SuplVersionOther(code: int)

  datatype QmiSuplVersion = QSupl10 | QSupl20 | QSupl202

  /** setSUPLVersion's mapping: 2.0.0 and 2.0.2 are passed on, anything else is 1.0. */
  function QmiSuplVersionOf(v: SuplVersion): (q: QmiSuplVersion)
    ensures q == QSupl20 <==> v == Supl200
    ensures q == QSupl202 <==> v == Supl202
    ensures q == QSupl10 <==> v == Supl100 || v.SuplVersionOther?
  {
    match v
    case Supl200 => QSupl20
    case Supl202 => QSupl202
    case _ => QSupl10
  }

  datatype LppProfile = RrlpOnLte | LppUserPlane | LppControlPlane | LppUserAndControlPlane | LppOther(code: int)

  datatype LppPlane = UserPlane | ControlPlane

  /** setLPPConfig's mapping to the set of enabled LPP planes. */
  function LppConfigOf(p: LppProfile): (planes: set<LppPlane>)
    ensures UserPlane in planes <==> p == LppUserPlane || p == LppUserAndControlPlane
    ensures ControlPlane in planes <==> p == LppControlPlane || p == LppUserAndControlPlane
  {
    match p
    case LppUserPlane => {UserPlane}
    case LppControlPlane => {ControlPlane}
    case LppUserAndControlPlane => {UserPlane, ControlPlane}
    case _ => {}
  }

  datatype XtraVersionCheck = XtraCheckDisable | XtraCheckAuto | XtraCheckXtra2 | XtraCheckXtra3

  /** setXtraVersionCheck's mapping; values other than 1..3 disable the check. */
  function XtraVersionCheckOf(check: int): (mode: XtraVersionCheck)
    ensures mode == XtraCheckAuto <==> check == 1
    ensures mode == XtraCheckXtra2 <==> check == 2
    ensures mode == XtraCheckXtra3 <==> check == 3
    ensures mode == XtraCheckDisable <==> !(1 <= check <= 3)
  {
    if check == 1 then XtraCheckAuto
    else if check == 2 then XtraCheckXtra2
    else if check == 3 then XtraCheckXtra3
    else XtraCheckDisable
  }

  // ------------------------------------------------------------- servers

  datatype ServerType = UmtsSlp | CdmaPde | CdmaMpc | CustomPde

  datatype LocServerType = AgpsCdmaPdeServer | AgpsCustomPdeServer | AgpsMpcServer | AgpsSuplServer | LocServerOther(code: int)

  /** strlcpy into a zero-filled buffer of `size` bytes: the longest prefix
      of the source that leaves room for the terminator. */
  function Strlcpy(src: string, size: nat): (dst: string)
    requires size > 0
    ensures |dst| < size && dst <= src
    ensures |src| < size ==> dst == src
    ensures |src| >= size ==> |dst| == size - 1
  {
    if |src| < size then src else src[..size - 1]
  }

  /** Size of the request's urlAddr buffer, terminator included. */
  const URL_ADDR_SIZE: int := 256

  datatype SetServerReq =
    | UrlServer(serverType: ServerType, urlAddr: string)
    | Ipv4Server(serverType: ServerType, addr: int, port: int)

  /** setServer(url, len): a declared length that is negative or longer than
      the buffer is refused before anything is sent; otherwise the URL is
      copied with truncation to the buffer. */
  function SetServerUrlReq(url: string, len: int): (r: Option<SetServerReq>)
    ensures r.None? <==> len < 0 || len > URL_ADDR_SIZE
    ensures r.Some? ==> r.value.serverType == UmtsSlp && r.value.UrlServer?
    ensures r.Some? ==> |r.value.urlAddr| < URL_ADDR_SIZE && r.value.urlAddr <= url
    ensures r.Some? && |url| < URL_ADDR_SIZE ==> r.value.urlAddr == url
  {
    if len < 0 || len > URL_ADDR_SIZE then None
    else Some(UrlServer(UmtsSlp, Strlcpy(url, URL_ADDR_SIZE)))
  }

  /** setServer(ip, port, type): MPC and custom PDE keep their kind, every
      other type is a CDMA PDE. */
  function SetServerIpReq(ip: int, port: int, t: LocServerType): (r: SetServerReq)
    ensures r.Ipv4Server? && r.addr == ip && r.port == port
    ensures r.serverType == CdmaMpc <==> t == AgpsMpcServer
    ensures r.serverType == CustomPde <==> t == AgpsCustomPdeServer
    ensures r.serverType == CdmaPde <==> !(t == AgpsMpcServer || t == AgpsCustomPdeServer)
  {
    var kind := match t
      case AgpsMpcServer => CdmaMpc
      case AgpsCustomPdeServer => CustomPde
      case _ => CdmaPde;
    Ipv4Server(kind, ip, port)
  }

  // ---------------------------------------------------------- ATL status

  datatype Bearer = BearerIpv4 | BearerIpv6 | BearerIpv4v6 | BearerInvalid | BearerOther(code: int)

  datatype PdnType = PdnIpv4 | PdnIpv6 | PdnIpv4v6

  /** Size of apnProfile.apnName, terminator included
      (QMI_LOC_MAX_APN_NAME_LENGTH_V02 + 1). */
  const APN_NAME_SIZE: int := 101

  /** The location-server connection status request of atlOpenStatus; `apnName` is the zero-filled buffer's
      string, empty unless an APN was copied in. */
  datatype ConnStatusReq = ConnStatusReq(connHandle: int, succeeded: bool, apnName: string, apnProfile: Option<PdnType>)

  /** atlOpenStatus's request: on success a non-null APN is copied in with
      truncation and the bearer picks the PDN type (none for an invalid
      bearer); an unknown bearer is refused with INVALID_HANDLE
      before anything is sent; on failure the bearer is not looked at. */
  function AtlOpenRequest(handle: int, isSucc: bool, apn: Option<string>, bearer: Bearer): (r: Option<ConnStatusReq>)
    ensures r.None? <==> isSucc && bearer.BearerOther?
    ensures r.Some? ==> r.value.connHandle == handle && r.value.succeeded == isSucc
    ensures r.Some? ==> (r.value.apnProfile.Some? <==> isSucc && !bearer.BearerInvalid?)
    ensures r.Some? && r.value.apnProfile.Some? ==> BearerOfPdn(r.value.apnProfile.value) == bearer
    ensures r.Some? && !(isSucc && apn.Some?) ==> r.value.apnName == []
    ensures r.Some? && isSucc && apn.Some? ==>
      |r.value.apnName| < APN_NAME_SIZE && r.value.apnName <= apn.value &&
      (|apn.value| < APN_NAME_SIZE ==> r.value.apnName == apn.value)
  {
    if !isSucc then Some(ConnStatusReq(handle, false, [], None))
    else
      var name := if apn.Some? then Strlcpy(apn.value, APN_NAME_SIZE) else [];
      match bearer
      case BearerIpv4 => Some(ConnStatusReq(handle, true, name, Some(PdnIpv4)))
      case BearerIpv6 => Some(ConnStatusReq(handle, true, name, Some(PdnIpv6)))
      case BearerIpv4v6 => Some(ConnStatusReq(handle, true, name, Some(PdnIpv4v6)))
      case BearerInvalid => Some(ConnStatusReq(handle, true, name, None))
      case BearerOther(_) => None
  }

  /** Reference inverse of the bearer-to-PDN mapping. */
  function BearerOfPdn(p: PdnType): Bearer {
    match p
    case PdnIpv4 => BearerIpv4
    case PdnIpv6 => BearerIpv6
    case PdnIpv4v6 => BearerIpv4v6
  }

  // --------------------------------------------------------- fix sessions

  /** Consumer positioning mode (LocPositionMode). */
  datatype PositionMode = ModeStandalone | ModeMsBased | ModeMsAssisted | ModeReserved4 | ModeReserved5 | ModeOther(code: int)

  /** QMI-LOC operation mode. */
  datatype OperationMode = OperStandalone | OperMsb | OperMsa | OperCellId | OperWwan

  /** startFix's mode switch; unlisted modes run standalone. */
  function OperationModeOf(m: PositionMode): (o: OperationMode)
    ensures o == OperStandalone <==> m == ModeStandalone || m.ModeOther?
    ensures o == OperMsb <==> m == ModeMsBased
    ensures o == OperMsa <==> m == ModeMsAssisted
    ensures o == OperCellId <==> m == ModeReserved4
    ensures o == OperWwan <==> m == ModeReserved5
  {
    match m
    case ModeMsBased => OperMsb
    case ModeMsAssisted => OperMsa
    case ModeReserved4 => OperCellId
    case ModeReserved5 => OperWwan
    case _ => OperStandalone
  }

  datatype Recurrence = RecurrencePeriodic | RecurrenceSingle

  datatype AccuracyLevel = AccuracyHigh | AccuracyMed | AccuracyLow

  /** The fix criteria a session is started with (LocPosMode); the
      credential strings are reduced to whether the first one is non-empty. */
  datatype PosMode = PosMode(
    mode: PositionMode,
    minInterval: nat,
    preferredAccuracy: nat,
    recurrence: Recurrence,
    sharePosition: bool,
    hasCredentials: bool)

  /** The dummy session id every start and stop request carries. */
  const DEF_SESSION_ID: int := 1

  /** Accuracy thresholds (metres) and the power limits of a low-accuracy session. */
  const HIGH_ACCURACY_MAX: nat := 100
  const MED_ACCURACY_MAX: nat := 1000
  const LOW_ACCURACY_REPORT_TIMEOUT_MS: nat := 60000
  const LOW_ACCURACY_MIN_INTERVAL_MS: nat := 600000

  /** The QMI-LOC start request. */
  datatype StartReq = StartReq(
    minInterval: nat,
    accuracy: AccuracyLevel,
    positionReportTimeout: Option<nat>,
    recurrence: Recurrence,
    sessionId: int,
    sharePosition: bool,
    applicationIdValid: bool,
    altitudeAssumedInSvInfo: bool)

  /** startFix's start request: the accuracy tier follows the preferred
      accuracy; a low-accuracy session is capped at a one-minute report
      timeout and at least a ten-minute interval. */
  function BuildStartReq(c: PosMode): (r: StartReq)
    ensures r.accuracy == AccuracyHigh <==> c.preferredAccuracy <= HIGH_ACCURACY_MAX
    ensures r.accuracy == AccuracyMed <==> HIGH_ACCURACY_MAX < c.preferredAccuracy <= MED_ACCURACY_MAX
    ensures r.accuracy == AccuracyLow <==> c.preferredAccuracy > MED_ACCURACY_MAX
    ensures r.positionReportTimeout.Some? <==> r.accuracy == AccuracyLow
    ensures r.positionReportTimeout.Some? ==> r.positionReportTimeout.value == LOW_ACCURACY_REPORT_TIMEOUT_MS
    ensures r.minInterval >= c.minInterval
    ensures r.accuracy == AccuracyLow ==> r.minInterval >= LOW_ACCURACY_MIN_INTERVAL_MS
    ensures r.minInterval != c.minInterval ==> r.accuracy == AccuracyLow && r.minInterval == LOW_ACCURACY_MIN_INTERVAL_MS
    ensures r.recurrence == c.recurrence && r.sharePosition == c.sharePosition
    ensures r.sessionId == DEF_SESSION_ID && r.applicationIdValid == c.hasCredentials && !r.altitudeAssumedInSvInfo
  {
    var level :=
      if c.preferredAccuracy <= HIGH_ACCURACY_MAX then AccuracyHigh
      else if c.preferredAccuracy <= MED_ACCURACY_MAX then AccuracyMed
      else AccuracyLow;
    var interval :=
      if level == AccuracyLow && c.minInterval < LOW_ACCURACY_MIN_INTERVAL_MS
      then LOW_ACCURACY_MIN_INTERVAL_MS else c.minInterval;
    StartReq(
      interval, level,
      if level == AccuracyLow then Some(LOW_ACCURACY_REPORT_TIMEOUT_MS) else None,
      c.recurrence, DEF_SESSION_ID, c.sharePosition, c.hasCredentials, false)
  }

  /** A tighter accuracy preference never yields a coarser tier. */
  function TierRank(a: AccuracyLevel): int {
    match a
    case AccuracyHigh => 0
    case AccuracyMed => 1
    case AccuracyLow => 2
  }

  lemma StartTierMonotone(c: PosMode, d: PosMode)
    requires c.preferredAccuracy <= d.preferredAccuracy
    ensures TierRank(BuildStartReq(c).accuracy) <= TierRank(BuildStartReq(d).accuracy)
  {
  }

  // --------------------------------------------------- position injection

  /** The smallest horizontal uncertainty (metres) advertised to the modem. */
  const MIN_INJECTED_HOR_UNC: real := 1000.0

  /** Confidence (percent) attached to injected uncertainties: one standard deviation. */
  const INJECTED_CONFIDENCE: int := 68

  /** The QMI-LOC inject-position request; absent fields are not valid. */
  datatype InjectPositionReq = InjectPositionReq(
    latitude: Option<real>,
    longitude: Option<real>,
    horUncCircular: Option<real>,
    horConfidence: Option<int>,
    rawHorUncCircular: Option<real>,
    rawHorConfidence: Option<int>,
    altitudeWrtEllipsoid: Option<real>,
    vertUnc: Option<real>,
    vertConfidence: Option<int>,
    timestampUtc: Option<int>,
    onDemandCpi: Option<bool>)

  /** The advertised uncertainty: the raw one raised to the floor. */
  function FlooredUnc(accuracy: real): (u: real)
    ensures u >= MIN_INJECTED_HOR_UNC && u >= accuracy
    ensures u == accuracy <==> accuracy >= MIN_INJECTED_HOR_UNC
  {
    if accuracy < MIN_INJECTED_HOR_UNC then MIN_INJECTED_HOR_UNC else accuracy
  }

  /** injectPosition(latitude, longitude, accuracy): position and both
      uncertainties are always valid; the advertised one is floored, the raw
      one is the caller's. `clockUtcMs` is the wall clock, None when it
      cannot be read. */
  function BuildInjectPosition(latitude: real, longitude: real, accuracy: real, clockUtcMs: Option<int>): (r: InjectPositionReq)
    ensures r.latitude == Some(latitude) && r.longitude == Some(longitude)
    ensures r.rawHorUncCircular == Some(accuracy)
    ensures r.horUncCircular.Some? && r.horUncCircular.value >= MIN_INJECTED_HOR_UNC
    ensures r.horUncCircular.Some? && r.horUncCircular.value >= accuracy
    ensures r.horUncCircular == Some(accuracy) <==> accuracy >= MIN_INJECTED_HOR_UNC
    ensures r.horConfidence == Some(INJECTED_CONFIDENCE) && r.rawHorConfidence == Some(INJECTED_CONFIDENCE)
    ensures r.altitudeWrtEllipsoid.None? && r.vertUnc.None? && r.onDemandCpi.None?
    ensures r.timestampUtc == clockUtcMs
  {
    InjectPositionReq(
      Some(latitude), Some(longitude),
      Some(FlooredUnc(accuracy)), Some(INJECTED_CONFIDENCE),
      Some(accuracy), Some(INJECTED_CONFIDENCE),
      None, None, None, clockUtcMs, None)
  }

  datatype LocationFlag = HasLatLong | HasAltitude | HasSpeed | HasBearing | HasAccuracy | HasVerticalAccuracy | HasSpeedAccuracy | HasBearingAccuracy

  /** The consumer's Location (speed and bearing are not injected). */
  datatype Location = Location(
    flags: set<LocationFlag>,
    timestamp: int,
    latitude: real,
    longitude: real,
    altitude: real,
    accuracy: real,
    verticalAccuracy: real)

  /** injectPosition(Location): each group of fields is valid exactly when
      its flag is set, the advertised horizontal uncertainty is floored like
      above, and the injection is marked as an on-demand coarse position. */
  function BuildInjectLocation(loc: Location): (r: InjectPositionReq)
    ensures r.latitude.Some? <==> HasLatLong in loc.flags
    ensures r.longitude.Some? <==> HasLatLong in loc.flags
    ensures r.latitude.Some? ==> r.latitude.value == loc.latitude && r.longitude.value == loc.longitude
    ensures r.horUncCircular.Some? <==> HasAccuracy in loc.flags
    ensures r.rawHorUncCircular.Some? <==> HasAccuracy in loc.flags
    ensures r.horUncCircular.Some? ==>
      r.horUncCircular.value >= MIN_INJECTED_HOR_UNC && r.horUncCircular.value >= loc.accuracy
      && r.rawHorUncCircular.value == loc.accuracy
      && (r.horUncCircular.value == loc.accuracy <==> loc.accuracy >= MIN_INJECTED_HOR_UNC)
    ensures r.altitudeWrtEllipsoid.Some? <==> HasAltitude in loc.flags
    ensures r.vertUnc.Some? <==> HasVerticalAccuracy in loc.flags
    ensures r.vertConfidence.Some? <==> HasVerticalAccuracy in loc.flags
    ensures r.timestampUtc == Some(loc.timestamp) && r.onDemandCpi == Some(true)
  {
    var ll := HasLatLong in loc.flags;
    var acc := HasAccuracy in loc.flags;
    var vert := HasVerticalAccuracy in loc.flags;
    InjectPositionReq(
      if ll then Some(loc.latitude) else None,
      if ll then Some(loc.longitude) else None,
      if acc then Some(FlooredUnc(loc.accuracy)) else None,
      if acc then Some(INJECTED_CONFIDENCE) else None,
      if acc then Some(loc.accuracy) else None,
      if acc then Some(INJECTED_CONFIDENCE) else None,
      if HasAltitude in loc.flags then Some(loc.altitude) else None,
      if vert then Some(loc.verticalAccuracy) else None,
      if vert then Some(INJECTED_CONFIDENCE) else None,
      Some(loc.timestamp), Some(true))
  }

  /** Both injection paths advertise the same uncertainty for the same accuracy. */
  lemma InjectPathsAgree(loc: Location, clockUtcMs: Option<int>)
    requires HasLatLong in loc.flags && HasAccuracy in loc.flags
    ensures BuildInjectLocation(loc).horUncCircular
         == BuildInjectPosition(loc.latitude, loc.longitude, loc.accuracy, clockUtcMs).horUncCircular
    ensures BuildInjectLocation(loc).latitude
         == BuildInjectPosition(loc.latitude, loc.longitude, loc.accuracy, clockUtcMs).latitude
  {
  }
}
