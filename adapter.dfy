// The LocApiV02 adapter object: its event-mask and session state, the
// engine-busy replay queue, and the operations that drive the QMI-LOC
// client library. Every call made into the library is appended to the ghost
// log `wire`; what the library answers is passed in as a parameter.

module Adapter {
  import opened Status
  import opened EventMasks
  import opened Gnss
  import opened SvReport
  import opened Measurements
  import opened Mappers
  import opened Deletion
  import opened Xtra
  import opened Certs
  import opened Transport

  /** mGnssMeasurementSupported: sup_unknown, sup_yes, sup_no. */
  datatype Support = SupUnknown | SupYes | SupNo

  /** The LocGpsStatusValue values the adapter reports. */
  datatype GpsStatus = GpsStatusNone | SessionBegin | SessionEnd | EngineOn | EngineOff

  /** The engine state of an ENGINE_STATE indication. */
  datatype EngineState = EngineStateOn | EngineStateOff | EngineStateOther(code: int)

  /** The session state of a FIX_SESSION_STATE indication. */
  datatype FixSessionState = FixSessionStarted | FixSessionFinished | FixSessionOther(code: int)

  /** reportFixSessionState's mapping: started and finished begin and end the
      session, anything else is reported as NONE. */
  function FixSessionStatus(s: FixSessionState): (g: GpsStatus)
    ensures g == SessionBegin <==> s == FixSessionStarted
    ensures g == SessionEnd <==> s == FixSessionFinished
    ensures g == GpsStatusNone <==> s.FixSessionOther?
  {
    match s
    case FixSessionStarted => SessionBegin
    case FixSessionFinished => SessionEnd
    case FixSessionOther(_) => GpsStatusNone
  }

  /** The clock fields of a measurement indication that convertGnssClock's
      counter logic reads (all uint32_t). */
  datatype ClockInfo = ClockInfo(
    systemTimeExtValid: bool, numClockResetsValid: bool,
    refFCount: int, numClockResets: int, systemMsec: int)

  /** The integer fields of the consumer's GnssMeasurementsClock: the
      hardware clock discontinuity count and timeNs (refFCount times 10^6,
      exact in a double for a uint32_t count). */
  datatype GnssClock = GnssClock(hwClockDiscontinuityCount: int, timeNs: int)

  /** The clock of a zero-filled notification. */
  const ZeroClock: GnssClock := GnssClock(0, 0)

  predicate ClockInRange(c: ClockInfo) {
    0 <= c.refFCount < TWO_32 && 0 <= c.numClockResets < TWO_32 && 0 <= c.systemMsec < TWO_32
  }

  /** One GNSS SV measurement indication of a burst. */
  datatype MeasReport = MeasReport(
    seqNum: int, maxMessageNum: int, system: SvSystem,
    svMeasurementValid: bool, svMeasurement: seq<SvMeasurement>,
    gloTime: GloTime, clock: ClockInfo)

  /** What is handed to the base class at the end of a burst. */
  datatype MeasurementsNotification = MeasurementsNotification(
    measurements: seq<GnssMeasurementsData>, clock: GnssClock, msInWeek: int)

  /** The measurements one indication adds to the burst. */
  function BurstEntries(r: MeasReport): (out: seq<GnssMeasurementsData>)
    ensures |out| == if r.svMeasurementValid then |r.svMeasurement| else 0
    ensures r.svMeasurementValid ==> forall i :: 0 <= i < |out| ==>
      out[i] == ConvertGnssMeasurement(r.system, r.svMeasurement[i], r.gloTime)
  {
    if r.svMeasurementValid then
      seq(|r.svMeasurement|, i requires 0 <= i < |r.svMeasurement| => ConvertGnssMeasurement(r.system, r.svMeasurement[i], r.gloTime))
    else []
  }

  /** The requests of an installAGpsCert run as QMI-LOC requests. */
  function CertMessages(rs: seq<CertRequest>): (out: seq<Request>)
    ensures |out| == |rs| && forall i :: 0 <= i < |rs| ==> out[i] == SuplCertificate(rs[i])
  {
    seq(|rs|, i requires 0 <= i < |rs| => SuplCertificate(rs[i]))
  }

  lemma CertMessagesAppend(a: seq<CertRequest>, b: seq<CertRequest>)
    ensures CertMessages(a + b) == CertMessages(a) + CertMessages(b)
  {
    assert forall i :: 0 <= i < |a + b| ==> CertMessages(a + b)[i] == (CertMessages(a) + CertMessages(b))[i];
  }

  /** The injection requests of setXtraData's first k parts. */
  function XtraMessages(data: seq<bv8>, replies: seq<XtraReply>, k: nat): (out: seq<Request>)
    requires k <= |replies|
    ensures |out| == k
  {
    if k == 0 then [] else XtraMessages(data, replies, k - 1) + [InjectPredictedOrbitsData(PartAfter(data, replies[..k - 1]))]
  }

  /** Request i injects the part that follows the first i answers. */
  lemma {:induction false} XtraMessagesAt(data: seq<bv8>, replies: seq<XtraReply>, k: nat, i: nat)
    requires i < k <= |replies|
    ensures XtraMessages(data, replies, k)[i] == InjectPredictedOrbitsData(PartAfter(data, replies[..i]))
  {
    if i < k - 1 {
      XtraMessagesAt(data, replies, k - 1, i);
    }
  }

  /** The library replies of setXtraData's first k parts. */
  function XtraReplies(replies: seq<XtraReply>, k: nat): (out: seq<Reply>)
    requires k <= |replies|
    ensures |out| == k && forall i :: 0 <= i < k ==> out[i] == replies[i].reply
  {
    seq(k, i requires 0 <= i < k => replies[i].reply)
  }

  /** Part k + 1 of setXtraData extends the requests and replies by one and
      moves the offset only when the part is accepted. */
  lemma XtraStep(data: seq<bv8>, replies: seq<XtraReply>, k: nat)
    requires k < |replies|
    ensures XtraMessages(data, replies, k + 1) == XtraMessages(data, replies, k) + [InjectPredictedOrbitsData(PartAfter(data, replies[..k]))]
    ensures XtraReplies(replies, k + 1) == XtraReplies(replies, k) + [replies[k].reply]
    ensures var off := Injected(data, replies[..k]);
      Injected(data, replies[..k + 1]) == if Accepted(replies[k], k + 1) then off + PartLen(|data|, off) else off
  {
    assert replies[..k + 1][..k] == replies[..k];
  }

  /** A run of synchronous requests with the reply each one gets. */
  datatype Exchange = Exchange(reqs: seq<Request>, replies: seq<Reply>)

  /** A request an operation may send: it goes out, and gets `reply`, exactly
      when `send` holds. */
  datatype Candidate = Candidate(send: bool, req: Request, reply: Reply)

  /** The candidates that go out, in order. */
  function Sends(cs: seq<Candidate>): (x: Exchange)
    ensures |x.reqs| == |x.replies| <= |cs|
  {
    if cs == [] then Exchange([], [])
    else
      var rest := Sends(cs[1..]);
      if cs[0].send then Exchange([cs[0].req] + rest.reqs, [cs[0].reply] + rest.replies) else rest
  }

  /** One candidate's part of a run. */
  function Sent1(c: Candidate): (x: Exchange)
    ensures |x.reqs| == |x.replies| == (if c.send then 1 else 0)
  {
    if c.send then Exchange([c.req], [c.reply]) else Exchange([], [])
  }

  /** One run followed by another. */
  function Cat(x: Exchange, y: Exchange): (z: Exchange) {
    Exchange(x.reqs + y.reqs, x.replies + y.replies)
  }

  /** A run is the first candidate's part followed by the run of the rest. */
  lemma SendsCons(c: Candidate, cs: seq<Candidate>)
    ensures Sends([c] + cs) == Cat(Sent1(c), Sends(cs))
  {
    assert ([c] + cs)[1..] == cs;
  }

  /** A run of one candidate is its part. */
  lemma SendsOne(c: Candidate)
    ensures Sends([c]) == Sent1(c)
  {
    assert [c][1..] == [];
  }

  /** A run of two candidates. */
  lemma SendsOfTwo(a: Candidate, b: Candidate)
    ensures Sends([a] + [b]) == Cat(Sent1(a), Sent1(b))
  {
    SendsOne(b);
    SendsCons(a, [b]);
  }

  /** A run of four candidates. */
  lemma SendsOfFour(a: Candidate, b: Candidate, c: Candidate, d: Candidate)
    ensures Sends([a] + ([b] + ([c] + [d]))) == Cat(Sent1(a), Cat(Sent1(b), Cat(Sent1(c), Sent1(d))))
  {
    SendsOfTwo(c, d);
    SendsCons(b, [c] + [d]);
    SendsCons(a, [b] + ([c] + [d]));
  }

  // The synchronous requests of open after the handle has been dealt with:
  // the AON query and the feature query on a fresh handle, then the two
  // constellation configurations.

  function AonQuery(justOpened: bool, batching: bool, aonReply: Reply): Candidate {
    Candidate(justOpened && batching, QueryAonConfig(DEF_SESSION_ID), aonReply)
  }

  function FeatureQuery(justOpened: bool, featureReply: Reply): Candidate {
    Candidate(justOpened, GetSupportedFeature, featureReply)
  }

  function MeasurementConfig(support: Support, constReply: Reply): Candidate {
    Candidate(support == SupYes, SetGnssConstRepConfig(AllConstellations, Some(AllConstellations)), constReply)
  }

  function SupportProbe(support: Support, cache: bool, cacheReply: Reply): Candidate {
    Candidate(cache && support == SupUnknown, SetGnssConstRepConfig(AllConstellations, None), cacheReply)
  }

  function OpenExchange(justOpened: bool, batching: bool, support: Support, cache: bool,
                        aonReply: Reply, featureReply: Reply, constReply: Reply, cacheReply: Reply): (x: Exchange)
    ensures |x.reqs| == |x.replies| <= 4
  {
    Sends([AonQuery(justOpened, batching, aonReply)] + ([FeatureQuery(justOpened, featureReply)] +
          ([MeasurementConfig(support, constReply)] + [SupportProbe(support, cache, cacheReply)])))
  }

  /** open's run, part by part. */
  lemma OpenExchangeParts(justOpened: bool, batching: bool, support: Support, cache: bool,
                          aonReply: Reply, featureReply: Reply, constReply: Reply, cacheReply: Reply)
    ensures var x := OpenExchange(justOpened, batching, support, cache, aonReply, featureReply, constReply, cacheReply);
      var a, f, m, p := AonQuery(justOpened, batching, aonReply), FeatureQuery(justOpened, featureReply),
                        MeasurementConfig(support, constReply), SupportProbe(support, cache, cacheReply);
      x.reqs == Sent1(a).reqs + Sent1(f).reqs + Sent1(m).reqs + Sent1(p).reqs &&
      x.replies == Sent1(a).replies + Sent1(f).replies + Sent1(m).replies + Sent1(p).replies
  {
    SendsOfFour(AonQuery(justOpened, batching, aonReply), FeatureQuery(justOpened, featureReply),
                MeasurementConfig(support, constReply), SupportProbe(support, cache, cacheReply));
  }

  /** open sends the AON query exactly on a fresh handle of a batching modem,
      the feature query exactly on a fresh handle, the measurement and
      polynomial configuration exactly when measurements are supported, and
      the support probe exactly after a successful open while support is
      unknown. */
  lemma OpenExchangeRequests(justOpened: bool, batching: bool, support: Support, cache: bool,
                             aonReply: Reply, featureReply: Reply, constReply: Reply, cacheReply: Reply)
    ensures var x := OpenExchange(justOpened, batching, support, cache, aonReply, featureReply, constReply, cacheReply);
      (QueryAonConfig(DEF_SESSION_ID) in x.reqs <==> justOpened && batching) &&
      (GetSupportedFeature in x.reqs <==> justOpened) &&
      (SetGnssConstRepConfig(AllConstellations, Some(AllConstellations)) in x.reqs <==> support == SupYes) &&
      (SetGnssConstRepConfig(AllConstellations, None) in x.reqs <==> cache && support == SupUnknown)
  {
    OpenExchangeParts(justOpened, batching, support, cache, aonReply, featureReply, constReply, cacheReply);
  }

  // deleteAidingData's synchronous requests: the new message while the latch
  // is set, then the legacy message when the latch was already cleared or the
  // new one came back UNSUPPORTED or INTERNAL.

  function NewApiDelete(d: GnssAidingData, tried: bool, newReply: Reply): Candidate {
    Candidate(tried, DeleteGnssServiceData(NewApiRequest(d)), newReply)
  }

  function LegacyDelete(d: GnssAidingData, tried: bool, newReply: Reply, legacyReply: Reply): Candidate {
    Candidate(!tried || FallsBack(newReply.status), DeleteAssistData(LegacyRequest(d)), legacyReply)
  }

  function DeleteExchange(d: GnssAidingData, tried: bool, newReply: Reply, legacyReply: Reply): (x: Exchange)
    ensures |x.reqs| == |x.replies| <= 2
  {
    Sends([NewApiDelete(d, tried, newReply)] + [LegacyDelete(d, tried, newReply, legacyReply)])
  }

  /** deleteAidingData's run, part by part. */
  lemma DeleteExchangeParts(d: GnssAidingData, tried: bool, newReply: Reply, legacyReply: Reply)
    ensures var x := DeleteExchange(d, tried, newReply, legacyReply);
      var n, l := NewApiDelete(d, tried, newReply), LegacyDelete(d, tried, newReply, legacyReply);
      x.reqs == Sent1(n).reqs + Sent1(l).reqs && x.replies == Sent1(n).replies + Sent1(l).replies
  {
    SendsOfTwo(NewApiDelete(d, tried, newReply), LegacyDelete(d, tried, newReply, legacyReply));
  }

  /** The new message goes out exactly while the latch is set, the legacy one
      exactly on fallback, and the new one first. */
  lemma DeleteExchangeRequests(d: GnssAidingData, tried: bool, newReply: Reply, legacyReply: Reply)
    ensures var x := DeleteExchange(d, tried, newReply, legacyReply);
      (DeleteGnssServiceData(NewApiRequest(d)) in x.reqs <==> tried) &&
      (DeleteAssistData(LegacyRequest(d)) in x.reqs <==> !tried || FallsBack(newReply.status)) &&
      (|x.reqs| == 2 ==> x.reqs == [DeleteGnssServiceData(NewApiRequest(d)), DeleteAssistData(LegacyRequest(d))])
  {
    DeleteExchangeParts(d, tried, newReply, legacyReply);
  }

  /** A mask with the excluded bits taken out holds none of them. */
  lemma MaskDiffDisjoint(mask: set<AdapterEvent>, excluded: set<AdapterEvent>)
    ensures (mask - excluded) * excluded == {}
  {
  }

  /** The library calls of open's handle stage: locClientOpen with the
      effective mask and, once the handle is good, the message-support check;
      on an open handle a registration when the adapter mask changed and its
      effective mask differs from the registered one. */
  function HandleCalls(wasClosed: bool, justOpened: bool, changed: bool, q: set<QmiEvent>, registered: set<QmiEvent>): seq<Call> {
    if wasClosed then [ClientOpen(q)] + (if justOpened then [ClientSupportMsgCheck] else [])
    else if changed && q != registered then [ClientRegister(q)]
    else []
  }

  /** A fresh handle starts with locClientOpen and checks message support
      only once it is good; an open handle registers only a changed mask
      whose effective mask differs from the registered one, and nothing
      else registers. */
  lemma HandleCallsShape(wasClosed: bool, justOpened: bool, changed: bool, q: set<QmiEvent>, registered: set<QmiEvent>)
    ensures var calls := HandleCalls(wasClosed, justOpened, changed, q, registered);
      (wasClosed ==> |calls| >= 1 && calls[0] == ClientOpen(q)) &&
      (wasClosed ==> (ClientSupportMsgCheck in calls <==> justOpened)) &&
      (!wasClosed ==> (calls != [] <==> changed && q != registered)) &&
      (forall c :: c in calls && c.ClientRegister? ==> c.mask == q && !wasClosed)
  {
    var calls := HandleCalls(wasClosed, justOpened, changed, q, registered);
    if wasClosed && !justOpened {
      assert calls == [ClientOpen(q)];
    }
  }

  /** cacheGnssMeasurementSupport's verdict: supported unless the library
      failed or the indication is neither success nor engine-busy. */
  function SupportOf(r: Reply): (s: Support)
    ensures s == SupYes <==> r.status == ClientSuccess && (r.ind == QmiSuccess || r.ind == QmiEngineBusy)
    ensures s != SupUnknown
  {
    if r.status != ClientSuccess || (r.ind != QmiSuccess && r.ind != QmiEngineBusy) then SupNo else SupYes
  }

  /** The result of the configuration setters: success exactly when both the
      library and the indication report success. */
  function ConfigResult(r: Reply): (e: LocationError)
    ensures e == LocationSuccess <==> Succeeded(r)
    ensures e != LocationSuccess ==> e == LocationGeneralFailure
  {
    if Succeeded(r) then LocationSuccess else LocationGeneralFailure
  }

  /** startFix goes on to the START request when setting the operation mode
      succeeded or only timed out, and the indication reported success. */
  predicate ModeAccepted(r: Reply) {
    (r.status == ClientSuccess || r.status == FailureTimeout) && r.ind == QmiSuccess
  }

  class LocApi {
    /** mExcludedMask: adapter bits this adapter never enables. */
    const mExcludedMask: set<AdapterEvent>
    /** LOC_ENGINE_SYNC_REQUEST_TIMEOUT. */
    const syncTimeoutMs: nat

    var mMask: set<AdapterEvent>
    var mQmiMask: set<QmiEvent>
    /** clientHandle != LOC_CLIENT_INVALID_HANDLE_VALUE. */
    var handleValid: bool
    var mInSession: bool
    var mEngineOn: bool
    var mMeasurementsStarted: bool
    var mGnssMeasurementSupported: Support
    var mResenders: seq<Resender>
    /** deleteAidingData's isNewApiSupported latch. */
    var isNewApiSupported: bool
    /** convertGnssClock's uint32_t counters. */
    var oldRefFCount: int
    var oldDiscCount: int
    var localDiscCount: int
    /** reportGnssMeasurementData's burst under construction (meas_index is
        its length), bGPSreceived and msInWeek. */
    var burst: seq<GnssMeasurementsData>
    /** The clock of the notification under construction. */
    var burstClock: GnssClock
    var gpsReceived: bool
    var burstMsInWeek: int

    /** The calls made into the client library, in order. */
    ghost var wire: seq<Call>
    /** The statuses reported to the base class, in order. */
    ghost var statusReports: seq<GpsStatus>

    /** Without a client handle nothing is registered, and the registered
        adapter mask never holds an excluded bit. */
    ghost predicate Valid()
      reads this`handleValid, this`mMask, this`mQmiMask, this`oldRefFCount, this`oldDiscCount, this`localDiscCount
    {
      (!handleValid ==> mMask == {} && mQmiMask == {}) &&
      mMask * mExcludedMask == {} &&
      0 <= oldRefFCount < TWO_32 && 0 <= oldDiscCount < TWO_32 && 0 <= localDiscCount < TWO_32
    }

    /** The run of synchronous sends since the log stood at w0 and the queue at rs0. */
    ghost predicate Exchanged(w0: seq<Call>, rs0: seq<Resender>, reqs: seq<Request>, reps: seq<Reply>)
      reads this`wire, this`mResenders, this`mQmiMask
    {
      |reqs| == |reps| &&
      wire == w0 + SendAll(mQmiMask, rs0, reqs, syncTimeoutMs, reps).calls &&
      mResenders == SendAll(mQmiMask, rs0, reqs, syncTimeoutMs, reps).resenders
    }

    constructor (excluded: set<AdapterEvent>, timeoutMs: nat)
      ensures Valid()
      ensures mExcludedMask == excluded && syncTimeoutMs == timeoutMs
      ensures mMask == {} && mQmiMask == {} && !handleValid
      ensures !mInSession && !mEngineOn && !mMeasurementsStarted
      ensures mGnssMeasurementSupported == SupUnknown && mResenders == [] && isNewApiSupported
      ensures oldRefFCount == 0 && oldDiscCount == 0 && localDiscCount == 0
      ensures burst == [] && burstClock == ZeroClock && !gpsReceived && burstMsInWeek == -1
      ensures wire == [] && statusReports == []
    {
      mExcludedMask := excluded;
      syncTimeoutMs := timeoutMs;
      mMask := {};
      mQmiMask := {};
      handleValid := false;
      mInSession := false;
      mEngineOn := false;
      mMeasurementsStarted := false;
      mGnssMeasurementSupported := SupUnknown;
      mResenders := [];
      isNewApiSupported := true;
      oldRefFCount, oldDiscCount, localDiscCount := 0, 0, 0;
      burst, burstClock, gpsReceived, burstMsInWeek := [], ZeroClock, false, -1;
      wire := [];
      statusReports := [];
    }

    // ------------------------------------------------------ transport

    /** locSyncSendReq: one synchronous request; an engine-busy answer queues
        a replay, registering ENGINE_STATE first when the queue was empty. */
    method LocSyncSendReq(req: Request, reply: Reply) returns (status: ClientStatus)
      modifies this`wire, this`mResenders
      ensures status == reply.status
      ensures var s := SyncSendStep(mQmiMask, old(mResenders), req, syncTimeoutMs, reply);
        wire == old(wire) + s.calls && mResenders == s.resenders
    {
      status := reply.status;
      wire := wire + [SyncSend(req, syncTimeoutMs, true)];
      if IsBusy(reply) {
        if mResenders == [] && QEngineState !in mQmiMask {
          wire := wire + [ClientRegister(mQmiMask + {QEngineState})];
        }
        mResenders := mResenders + [Resender(req, syncTimeoutMs)];
      }
    }

    /** LocSyncSendReq as the next send of a run (a proof device). */
    method SyncSendNext(req: Request, reply: Reply, ghost w0: seq<Call>, ghost rs0: seq<Resender>,
                        ghost reqs: seq<Request>, ghost reps: seq<Reply>) returns (status: ClientStatus)
      requires Exchanged(w0, rs0, reqs, reps)
      modifies this`wire, this`mResenders
      ensures status == reply.status
      ensures Exchanged(w0, rs0, reqs + [req], reps + [reply])
    {
      SendAllSnoc(mQmiMask, rs0, reqs, syncTimeoutMs, reps, req, reply);
      status := LocSyncSendReq(req, reply);
    }

    // ------------------------------------------------------ event masks

    /** registerEventMask: the adjusted QMI mask is registered only when it
        differs from mQmiMask, and kept only when the library accepts it;
        mMask is always updated. */
    method RegisterEventMask(adapterMask: set<AdapterEvent>, regOk: bool)
      modifies this`mMask, this`mQmiMask, this`wire
      ensures mMask == adapterMask
      ensures var q := EffectiveMask(adapterMask, mInSession);
        if q != old(mQmiMask) then
          wire == old(wire) + [ClientRegister(q)] && mQmiMask == (if regOk then q else old(mQmiMask))
        else
          wire == old(wire) && mQmiMask == old(mQmiMask)
    {
      var q := EffectiveMask(adapterMask, mInSession);
      if q != mQmiMask {
        wire := wire + [ClientRegister(q)];
        if regOk {
          mQmiMask := q;
        }
      }
      mMask := adapterMask;
    }

    /** The handle stage of open: on a fresh handle the capped mask is
        registered through locClientOpen and dropped again when that fails;
        on an open handle a changed mask is re-registered. */
    predicate OpenedHandle(wasClosed: bool, mask0: set<AdapterEvent>, qmiMask0: set<QmiEvent>,
                           newMask: set<AdapterEvent>, openStatus: ClientStatus, handleOk: bool, regOk: bool, rtv: AdapterErr)
      reads this`handleValid, this`mMask, this`mQmiMask, this`mInSession
    {
      var justOpened := wasClosed && openStatus == ClientSuccess && handleOk;
      var q := EffectiveMask(newMask, mInSession);
      (rtv == ErrFailure <==> wasClosed && !justOpened) &&
      (rtv != ErrFailure ==> rtv == ErrSuccess) &&
      handleValid == (!wasClosed || justOpened) &&
      (wasClosed && !justOpened ==> mMask == {} && mQmiMask == {}) &&
      (justOpened ==> mMask == newMask && mQmiMask == q) &&
      (!wasClosed ==>
         mMask == newMask &&
         mQmiMask == (if newMask != mask0 && q != qmiMask0 && regOk then q else qmiMask0))
    }

    method OpenHandle(newMask: set<AdapterEvent>, openStatus: ClientStatus, handleOk: bool, regOk: bool)
      returns (rtv: AdapterErr)
      requires Valid() && newMask * mExcludedMask == {}
      modifies this`mMask, this`mQmiMask, this`handleValid, this`wire
      ensures Valid()
      ensures OpenedHandle(!old(handleValid), old(mMask), old(mQmiMask), newMask, openStatus, handleOk, regOk, rtv)
      ensures wire == old(wire) + HandleCalls(!old(handleValid), !old(handleValid) && openStatus == ClientSuccess && handleOk,
                                              newMask != old(mMask), EffectiveMask(newMask, mInSession), old(mQmiMask))
    {
      rtv := ErrSuccess;
      if !handleValid {
        mMask := newMask;
        mQmiMask := EffectiveMask(newMask, mInSession);
        wire := wire + [ClientOpen(mQmiMask)];
        if openStatus != ClientSuccess || !handleOk {
          mMask := {};
          mQmiMask := {};
          rtv := ErrFailure;
        } else {
          handleValid := true;
          wire := wire + [ClientSupportMsgCheck];
        }
      } else if newMask != mMask {
        RegisterEventMask(newMask, regOk);
      }
    }

    /** open: the handle stage, then on a fresh handle the AON and feature
        queries; then the constellation report is configured when
        measurements are known to be supported, and on success the support
        is probed once. */
    method Open(mask: set<AdapterEvent>, openStatus: ClientStatus, handleOk: bool, regOk: bool, batching: bool,
                aonReply: Reply, featureReply: Reply, constReply: Reply, cacheReply: Reply)
      returns (rtv: AdapterErr)
      requires Valid()
      modifies this`mMask, this`mQmiMask, this`handleValid, this`wire, this`mResenders, this`mGnssMeasurementSupported
      ensures Valid()
      ensures var wasClosed := !old(handleValid);
        var newMask := mask - mExcludedMask;
        var justOpened := wasClosed && openStatus == ClientSuccess && handleOk;
        var x := OpenExchange(rtv == ErrSuccess && wasClosed, batching, old(mGnssMeasurementSupported), rtv == ErrSuccess,
                              aonReply, featureReply, constReply, cacheReply);
        var head := HandleCalls(wasClosed, justOpened, newMask != old(mMask), EffectiveMask(newMask, mInSession), old(mQmiMask));
        Exchanged(old(wire) + head, old(mResenders), x.reqs, x.replies)
      ensures mGnssMeasurementSupported ==
        if rtv == ErrSuccess && old(mGnssMeasurementSupported) == SupUnknown then SupportOf(cacheReply)
        else old(mGnssMeasurementSupported)
      ensures OpenedHandle(!old(handleValid), old(mMask), old(mQmiMask), mask - mExcludedMask, openStatus, handleOk, regOk, rtv)
    {
      var wasClosed := !handleValid;
      MaskDiffDisjoint(mask, mExcludedMask);
      rtv := OpenHandle(mask - mExcludedMask, openStatus, handleOk, regOk);
      OpenQueries(rtv == ErrSuccess && wasClosed, rtv == ErrSuccess, batching, aonReply, featureReply, constReply, cacheReply);
    }

    /** The requests open sends once the handle stage is over. */
    method OpenQueries(justOpened: bool, success: bool, batching: bool,
                       aonReply: Reply, featureReply: Reply, constReply: Reply, cacheReply: Reply)
      modifies this`wire, this`mResenders, this`mGnssMeasurementSupported
      ensures var x := OpenExchange(justOpened, batching, old(mGnssMeasurementSupported), success,
                                    aonReply, featureReply, constReply, cacheReply);
        Exchanged(old(wire), old(mResenders), x.reqs, x.replies)
      ensures mGnssMeasurementSupported ==
        if success && old(mGnssMeasurementSupported) == SupUnknown then SupportOf(cacheReply)
        else old(mGnssMeasurementSupported)
    {
      ghost var w0 := wire;
      ghost var rs0 := mResenders;
      OpenExchangeParts(justOpened, batching, mGnssMeasurementSupported, success, aonReply, featureReply, constReply, cacheReply);
      ghost var reqs: seq<Request> := [];
      ghost var reps: seq<Reply> := [];
      if justOpened {
        reqs, reps := QueryCapabilities(batching, aonReply, featureReply, w0, rs0);
      }
      reqs, reps := ConfigureMeasurementReports(success, constReply, cacheReply, w0, rs0, reqs, reps);
    }

    /** open on a fresh handle: the AON configuration is queried when the
        modem supports batching, then the supported features. */
    method QueryCapabilities(batching: bool, aonReply: Reply, featureReply: Reply, ghost w0: seq<Call>, ghost rs0: seq<Resender>)
      returns (ghost reqs: seq<Request>, ghost reps: seq<Reply>)
      requires Exchanged(w0, rs0, [], [])
      modifies this`wire, this`mResenders
      ensures reqs == (if batching then [QueryAonConfig(DEF_SESSION_ID)] else []) + [GetSupportedFeature]
      ensures reps == (if batching then [aonReply] else []) + [featureReply]
      ensures Exchanged(w0, rs0, reqs, reps)
    {
      reqs, reps := [], [];
      if batching {
        var _ := SyncSendNext(QueryAonConfig(DEF_SESSION_ID), aonReply, w0, rs0, reqs, reps);
        reqs, reps := [QueryAonConfig(DEF_SESSION_ID)], [aonReply];
      }
      var _ := SyncSendNext(GetSupportedFeature, featureReply, w0, rs0, reqs, reps);
      reqs, reps := reqs + [GetSupportedFeature], reps + [featureReply];
    }

    /** The end of open: the constellation report is configured when
        measurements are known to be supported, and after a successful
        open the support is probed while it is unknown. */
    method ConfigureMeasurementReports(success: bool, constReply: Reply, cacheReply: Reply, ghost w0: seq<Call>, ghost rs0: seq<Resender>,
                                       ghost reqs: seq<Request>, ghost reps: seq<Reply>)
      returns (ghost reqs': seq<Request>, ghost reps': seq<Reply>)
      requires Exchanged(w0, rs0, reqs, reps)
      modifies this`wire, this`mResenders, this`mGnssMeasurementSupported
      ensures var support := old(mGnssMeasurementSupported);
        reqs' == reqs + (if support == SupYes then [SetGnssConstRepConfig(AllConstellations, Some(AllConstellations))] else [])
                      + (if success && support == SupUnknown then [SetGnssConstRepConfig(AllConstellations, None)] else []) &&
        reps' == reps + (if support == SupYes then [constReply] else [])
                      + (if success && support == SupUnknown then [cacheReply] else [])
      ensures Exchanged(w0, rs0, reqs', reps')
      ensures mGnssMeasurementSupported ==
        if success && old(mGnssMeasurementSupported) == SupUnknown then SupportOf(cacheReply)
        else old(mGnssMeasurementSupported)
    {
      reqs', reps' := reqs, reps;
      if mGnssMeasurementSupported == SupYes {
        var _ := SetSvMeasurementConstellation(AllConstellations, constReply, w0, rs0, reqs, reps);
        reqs', reps' := reqs + [SetGnssConstRepConfig(AllConstellations, Some(AllConstellations))], reps + [constReply];
      }
      if success {
        reqs', reps' := CacheGnssMeasurementSupport(cacheReply, w0, rs0, reqs', reps');
      }
    }

    /** setSvMeasurementConstellation: the measurement and polynomial reports
        are both set to the given constellations. */
    method SetSvMeasurementConstellation(c: set<Constellation>, reply: Reply, ghost w0: seq<Call>, ghost rs0: seq<Resender>,
                                         ghost reqs: seq<Request>, ghost reps: seq<Reply>) returns (ret: AdapterErr)
      requires Exchanged(w0, rs0, reqs, reps)
      modifies this`wire, this`mResenders
      ensures ret == (if Succeeded(reply) then ErrSuccess else ErrGeneralFailure)
      ensures Exchanged(w0, rs0, reqs + [SetGnssConstRepConfig(c, Some(c))], reps + [reply])
    {
      var status := SyncSendNext(SetGnssConstRepConfig(c, Some(c)), reply, w0, rs0, reqs, reps);
      if status != ClientSuccess || reply.ind != QmiSuccess {
        ret := ErrGeneralFailure;
      } else {
        ret := ErrSuccess;
      }
    }

    /** cacheGnssMeasurementSupport: while the support is unknown, probe it by
        configuring the measurement report for all constellations; an
        engine-busy indication counts as supported. */
    method CacheGnssMeasurementSupport(reply: Reply, ghost w0: seq<Call>, ghost rs0: seq<Resender>,
                                       ghost reqs: seq<Request>, ghost reps: seq<Reply>)
      returns (ghost reqs': seq<Request>, ghost reps': seq<Reply>)
      requires Exchanged(w0, rs0, reqs, reps)
      modifies this`wire, this`mResenders, this`mGnssMeasurementSupported
      ensures old(mGnssMeasurementSupported) == SupUnknown ==>
        mGnssMeasurementSupported == SupportOf(reply) &&
        reqs' == reqs + [SetGnssConstRepConfig(AllConstellations, None)] && reps' == reps + [reply]
      ensures old(mGnssMeasurementSupported) != SupUnknown ==>
        mGnssMeasurementSupported == old(mGnssMeasurementSupported) && reqs' == reqs && reps' == reps
      ensures old(mGnssMeasurementSupported) == SupUnknown ==>
        (GnssConstellationConfig() <==> reply.status == ClientSuccess && (reply.ind == QmiSuccess || reply.ind == QmiEngineBusy))
      ensures Exchanged(w0, rs0, reqs', reps')
    {
      reqs', reps' := reqs, reps;
      if mGnssMeasurementSupported == SupUnknown {
        var status := SyncSendNext(SetGnssConstRepConfig(AllConstellations, None), reply, w0, rs0, reqs, reps);
        reqs', reps' := reqs + [SetGnssConstRepConfig(AllConstellations, None)], reps + [reply];
        if status != ClientSuccess || (reply.ind != QmiSuccess && reply.ind != QmiEngineBusy) {
          mGnssMeasurementSupported := SupNo;
        } else {
          mGnssMeasurementSupported := SupYes;
        }
      }
    }

    /** gnssConstellationConfig: whether the cached probe found measurement
        reports supported. */
    predicate GnssConstellationConfig()
      reads this
    {
      mGnssMeasurementSupported == SupYes
    }

    /** errorCb: on SERVICE_UNAVAILABLE the measurement support is forgotten
        so that the re-opened adapter probes it again. */
    method ErrorCb(serviceUnavailable: bool)
      modifies this`mGnssMeasurementSupported
      ensures mGnssMeasurementSupported == if serviceUnavailable then SupUnknown else old(mGnssMeasurementSupported)
      ensures serviceUnavailable ==> !GnssConstellationConfig()
    {
      if serviceUnavailable {
        mGnssMeasurementSupported := SupUnknown;
      }
    }

    /** close: success when there was no handle or the library closed it;
        either way the masks are dropped, the session ends and the handle
        is gone. */
    method Close(closeStatus: ClientStatus) returns (rtv: AdapterErr)
      requires Valid()
      modifies this`mMask, this`mQmiMask, this`mInSession, this`handleValid, this`wire
      ensures Valid()
      ensures rtv == (if !old(handleValid) || closeStatus == ClientSuccess then ErrSuccess else ErrFailure)
      ensures wire == old(wire) + (if old(handleValid) then [ClientClose] else [])
      ensures mMask == {} && mQmiMask == {} && !mInSession && !handleValid
    {
      if !handleValid {
        rtv := ErrSuccess;
      } else {
        wire := wire + [ClientClose];
        rtv := if closeStatus == ClientSuccess then ErrSuccess else ErrFailure;
      }
      mMask := {};
      mQmiMask := {};
      mInSession := false;
      handleValid := false;
    }

    // ------------------------------------------------------ sessions

    /** What startFix does: enter the session, re-register mMask with the
        tracking bits, set the operation mode synchronously and, when that
        went through, send START asynchronously. */
    twostate predicate StartedFix(c: PosMode, regOk: bool, modeReply: Reply, startStatus: ClientStatus, rtv: AdapterErr)
      reads this
    {
      var q := EffectiveMask(old(mMask), true);
      var reg := if q != old(mQmiMask) then [ClientRegister(q)] else [];
      var step := SyncSendStep(mQmiMask, old(mResenders), SetOperationMode(OperationModeOf(c.mode)), syncTimeoutMs, modeReply);
      mInSession && mMeasurementsStarted && mMask == old(mMask) &&
      mQmiMask == (if q != old(mQmiMask) && regOk then q else old(mQmiMask)) &&
      wire == old(wire) + reg + step.calls + (if ModeAccepted(modeReply) then [AsyncSend(Start(BuildStartReq(c)))] else []) &&
      mResenders == step.resenders &&
      rtv == ConvertErr(if ModeAccepted(modeReply) then startStatus else modeReply.status)
    }

    method StartFix(c: PosMode, regOk: bool, modeReply: Reply, startStatus: ClientStatus) returns (rtv: AdapterErr)
      requires Valid()
      modifies this`mInSession, this`mMeasurementsStarted, this`mMask, this`mQmiMask, this`wire, this`mResenders
      ensures Valid()
      ensures StartedFix(c, regOk, modeReply, startStatus, rtv)
    {
      EffectiveMaskEmpty(true);
      mInSession := true;
      mMeasurementsStarted := true;
      ghost var q := EffectiveMask(mMask, true);
      ghost var w1 := wire + (if q != mQmiMask then [ClientRegister(q)] else []);
      RegisterEventMask(mMask, regOk);
      assert wire == w1;
      rtv := SendModeAndStart(c, modeReply, startStatus);
    }

    /** The requests of startFix: the operation mode synchronously, then, if
        the mode was accepted, START asynchronously. */
    method SendModeAndStart(c: PosMode, modeReply: Reply, startStatus: ClientStatus) returns (rtv: AdapterErr)
      modifies this`wire, this`mResenders
      ensures var step := SyncSendStep(mQmiMask, old(mResenders), SetOperationMode(OperationModeOf(c.mode)), syncTimeoutMs, modeReply);
        wire == old(wire) + step.calls + (if ModeAccepted(modeReply) then [AsyncSend(Start(BuildStartReq(c)))] else []) &&
        mResenders == step.resenders
      ensures rtv == ConvertErr(if ModeAccepted(modeReply) then startStatus else modeReply.status)
    {
      var status := LocSyncSendReq(SetOperationMode(OperationModeOf(c.mode)), modeReply);
      if (status != ClientSuccess && status != FailureTimeout) || modeReply.ind != QmiSuccess {
        rtv := ConvertErr(status);
      } else {
        wire := wire + [AsyncSend(Start(BuildStartReq(c)))];
        rtv := ConvertErr(startStatus);
      }
    }

    /** stopFix: STOP is sent asynchronously and the session ends; the
        tracking bits are dropped at once only when the engine never came
        on, otherwise ENGINE_OFF drops them. */
    method StopFix(regOk: bool, stopStatus: ClientStatus) returns (rtv: AdapterErr)
      requires Valid()
      modifies this`mInSession, this`mMask, this`mQmiMask, this`wire
      ensures Valid()
      ensures !mInSession && mMask == old(mMask) && rtv == ConvertErr(stopStatus)
      ensures var q := EffectiveMask(old(mMask), false);
        var reg := !mEngineOn && q != old(mQmiMask);
        wire == old(wire) + [AsyncSend(Stop(DEF_SESSION_ID))] + (if reg then [ClientRegister(q)] else []) &&
        mQmiMask == (if reg && regOk then q else old(mQmiMask))
    {
      EffectiveMaskEmpty(false);
      wire := wire + [AsyncSend(Stop(DEF_SESSION_ID))];
      mInSession := false;
      if !mEngineOn {
        RegisterEventMask(mMask, regOk);
      }
      rtv := ConvertErr(stopStatus);
    }

    /** setPositionMode: a running session is restarted with the new
        criteria; otherwise nothing happens. */
    method SetPositionMode(c: PosMode, regOk: bool, modeReply: Reply, startStatus: ClientStatus) returns (rtv: AdapterErr)
      requires Valid()
      modifies this`mInSession, this`mMeasurementsStarted, this`mMask, this`mQmiMask, this`wire, this`mResenders
      ensures Valid()
      ensures old(mInSession) ==> StartedFix(c, regOk, modeReply, startStatus, rtv)
      ensures !old(mInSession) ==> rtv == ErrSuccess
      ensures !old(mInSession) ==>
        unchanged(this`mInSession, this`mMeasurementsStarted, this`mMask, this`mQmiMask, this`wire, this`mResenders)
    {
      if mInSession {
        rtv := StartFix(c, regOk, modeReply, startStatus);
      } else {
        rtv := ErrSuccess;
      }
    }

    // ------------------------------------------------------ engine state

    /** MsgUpdateEngineState::proc. Engine ON reports ENGINE_ON and
        SESSION_BEGIN only inside a session. Engine OFF reports SESSION_END
        and ENGINE_OFF, re-registers mMask (dropping the tracking bits outside
        a session), replays every queued busy request once in queue order
        and empties the queue. */
    method Proc(engineOn: bool, regOk1: bool, regOk2: bool)
      requires Valid()
      modifies this`mEngineOn, this`mMask, this`mQmiMask, this`wire, this`mResenders, this`statusReports
      ensures Valid()
      ensures mEngineOn == engineOn && mMask == old(mMask)
      ensures engineOn ==>
        statusReports == old(statusReports) + (if mInSession then [EngineOn, SessionBegin] else []) &&
        unchanged(this`mQmiMask, this`wire, this`mResenders)
      ensures !engineOn ==>
        statusReports == old(statusReports) + [SessionEnd, EngineOff] && mResenders == []
      ensures !engineOn ==>
        var q := EffectiveMask(old(mMask), mInSession);
        var first := old(mEngineOn) && !mInSession && q != old(mQmiMask);
        var mid := if first && regOk1 then q else old(mQmiMask);
        var second := q != mid;
        wire == old(wire) + (if first then [ClientRegister(q)] else []) + (if second then [ClientRegister(q)] else [])
                + Replays(old(mResenders)) &&
        mQmiMask == (if second && regOk2 then q else mid)
    {
      if engineOn {
        mEngineOn := engineOn;
        if mInSession {
          statusReports := statusReports + [EngineOn, SessionBegin];
        }
      } else {
        ProcOff(mEngineOn, regOk1, regOk2);
        mEngineOn := engineOn;
      }
    }

    /** The engine-off half of proc: outside a session an engine that was on
        first re-registers the mask; then every queued request is replayed. */
    method ProcOff(wasOn: bool, regOk1: bool, regOk2: bool)
      requires Valid()
      modifies this`mMask, this`mQmiMask, this`wire, this`mResenders, this`statusReports
      ensures Valid()
      ensures mMask == old(mMask) && statusReports == old(statusReports) + [SessionEnd, EngineOff] && mResenders == []
      ensures var q := EffectiveMask(old(mMask), mInSession);
        var first := wasOn && !mInSession && q != old(mQmiMask);
        var mid := if first && regOk1 then q else old(mQmiMask);
        var second := q != mid;
        wire == old(wire) + (if first then [ClientRegister(q)] else []) + (if second then [ClientRegister(q)] else [])
                + Replays(old(mResenders)) &&
        mQmiMask == (if second && regOk2 then q else mid)
    {
      OffRegistrations(wasOn, regOk1, regOk2);
      statusReports := statusReports + [SessionEnd, EngineOff];
      ReplayResenders();
    }

    /** The two registrations of the engine-off path. */
    method OffRegistrations(wasOn: bool, regOk1: bool, regOk2: bool)
      requires Valid()
      modifies this`mMask, this`mQmiMask, this`wire
      ensures Valid()
      ensures mMask == old(mMask)
      ensures var q := EffectiveMask(old(mMask), mInSession);
        var first := wasOn && !mInSession && q != old(mQmiMask);
        var mid := if first && regOk1 then q else old(mQmiMask);
        var second := q != mid;
        wire == old(wire) + (if first then [ClientRegister(q)] else []) + (if second then [ClientRegister(q)] else []) &&
        mQmiMask == (if second && regOk2 then q else mid)
    {
      EffectiveMaskEmpty(mInSession);
      if wasOn && !mInSession {
        RegisterEventMask(mMask, regOk1);
      }
      RegisterEventMask(mMask, regOk2);
    }

    /** The engine-off replay: every queued request is sent again, in queue
        order, and the queue is emptied. */
    method ReplayResenders()
      modifies this`wire, this`mResenders
      ensures wire == old(wire) + Replays(old(mResenders)) && mResenders == []
    {
      var i := 0;
      while i < |mResenders|
        modifies this`wire
        invariant 0 <= i <= |mResenders|
        invariant wire == old(wire) + Replays(mResenders[..i])
      {
        assert Replays(mResenders[..i + 1]) == Replays(mResenders[..i]) + [SyncSend(mResenders[i].req, mResenders[i].timeoutMs, false)];
        wire := wire + [SyncSend(mResenders[i].req, mResenders[i].timeoutMs, false)];
        i := i + 1;
      }
      assert mResenders[..i] == mResenders;
      mResenders := [];
    }

    /** reportEngineState: ON and OFF go to proc; any other state is reported
        as NONE. */
    method ReportEngineState(state: EngineState, regOk1: bool, regOk2: bool)
      requires Valid()
      modifies this`mEngineOn, this`mMask, this`mQmiMask, this`wire, this`mResenders, this`statusReports
      ensures Valid()
      ensures state.EngineStateOther? ==>
        statusReports == old(statusReports) + [GpsStatusNone] &&
        unchanged(this`mEngineOn, this`mMask, this`mQmiMask, this`wire, this`mResenders)
      ensures !state.EngineStateOther? ==> mEngineOn == state.EngineStateOn?
      ensures state.EngineStateOff? ==> mResenders == [] && statusReports == old(statusReports) + [SessionEnd, EngineOff]
    {
      match state
      case EngineStateOn => Proc(true, regOk1, regOk2);
      case EngineStateOff => Proc(false, regOk1, regOk2);
      case EngineStateOther(_) => statusReports := statusReports + [GpsStatusNone];
    }

    /** reportFixSessionState. */
    method ReportFixSessionState(s: FixSessionState)
      modifies this`statusReports
      ensures statusReports == old(statusReports) + [FixSessionStatus(s)]
    {
      statusReports := statusReports + [FixSessionStatus(s)];
    }

    // ------------------------------------------------------ aiding data

    /** deleteAidingData: the new message is tried while the latch is set;
        an UNSUPPORTED or INTERNAL answer (or a latch already cleared) clears
        the latch and sends the legacy message. Only a failing legacy message
        is reported as an error. */
    method DeleteAidingData(d: GnssAidingData, newReply: Reply, legacyReply: Reply) returns (err: LocationError)
      modifies this`isNewApiSupported, this`wire, this`mResenders
      ensures var fallback := !old(isNewApiSupported) || FallsBack(newReply.status);
        var x := DeleteExchange(d, old(isNewApiSupported), newReply, legacyReply);
        isNewApiSupported == !fallback &&
        Exchanged(old(wire), old(mResenders), x.reqs, x.replies) &&
        err == (if fallback && !Succeeded(legacyReply) then LocationGeneralFailure else LocationSuccess)
    {
      ghost var x := DeleteExchange(d, isNewApiSupported, newReply, legacyReply);
      DeleteExchangeParts(d, isNewApiSupported, newReply, legacyReply);
      var status := FailureUnsupported;
      err := LocationSuccess;
      ghost var reqs: seq<Request> := [];
      ghost var reps: seq<Reply> := [];
      if isNewApiSupported {
        status := SyncSendNext(DeleteGnssServiceData(NewApiRequest(d)), newReply, old(wire), old(mResenders), reqs, reps);
        reqs, reps := [DeleteGnssServiceData(NewApiRequest(d))], [newReply];
      }
      if status == FailureUnsupported || status == FailureInternal {
        isNewApiSupported := false;
        var req := BuildLegacyRequest(d);
        var legacyStatus := SyncSendNext(DeleteAssistData(req), legacyReply, old(wire), old(mResenders), reqs, reps);
        reqs, reps := reqs + [DeleteAssistData(req)], reps + [legacyReply];
        if legacyStatus != ClientSuccess || legacyReply.ind != QmiSuccess {
          err := LocationGeneralFailure;
        }
      }
      assert reqs == x.reqs && reps == x.replies;
    }

    // ------------------------------------------------------ XTRA injection

    /** setXtraData: parts 1..TotalParts are sent in turn, each from the
        offset the accepted parts have reached; a rejected part is not
        retried and does not stop the loop. The result is that of the last
        part. The counter here does not wrap, so every part count the
        request's uint16_t totalParts field holds, 0xFFFF included, ends. */
    method SetXtraData(data: seq<bv8>, replies: seq<XtraReply>) returns (err: AdapterErr)
      requires TotalParts(|data|) <= MAX_PARTS && |replies| == TotalParts(|data|)
      modifies this`wire, this`mResenders
      ensures err == ConvertErr(replies[|replies| - 1].reply.status)
      ensures Exchanged(old(wire), old(mResenders), XtraMessages(data, replies, |replies|), XtraReplies(replies, |replies|))
    {
      var status := ClientSuccess;
      var totalParts := TotalParts(|data|);
      var lenInjected := 0;
      var part := 1;
      while part <= totalParts
        invariant 1 <= part <= totalParts + 1
        invariant lenInjected == Injected(data, replies[..part - 1])
        invariant part > 1 ==> status == replies[part - 2].reply.status
        invariant Exchanged(old(wire), old(mResenders), XtraMessages(data, replies, part - 1), XtraReplies(replies, part - 1))
      {
        status, lenInjected := InjectXtraPart(data, replies, part, lenInjected, old(wire), old(mResenders));
        part := part + 1;
      }
      err := ConvertErr(status);
    }

    /** One pass of setXtraData's loop: part `part` is cut from the injected
        offset and sent; the offset moves on only when the part is accepted. */
    method InjectXtraPart(data: seq<bv8>, replies: seq<XtraReply>, part: nat, lenInjected: nat,
                          ghost w0: seq<Call>, ghost rs0: seq<Resender>) returns (status: ClientStatus, lenInjected': nat)
      requires 1 <= part <= |replies| == TotalParts(|data|)
      requires lenInjected == Injected(data, replies[..part - 1])
      requires Exchanged(w0, rs0, XtraMessages(data, replies, part - 1), XtraReplies(replies, part - 1))
      modifies this`wire, this`mResenders
      ensures status == replies[part - 1].reply.status
      ensures lenInjected' == Injected(data, replies[..part])
      ensures Exchanged(w0, rs0, XtraMessages(data, replies, part), XtraReplies(replies, part))
    {
      var partLen := if MAX_PART_LEN > |data| - lenInjected then |data| - lenInjected else MAX_PART_LEN;
      var p := XtraPart(|data|, TotalParts(|data|), part, data[lenInjected..lenInjected + partLen]);
      var r := replies[part - 1];
      XtraStep(data, replies, part - 1);
      status := SyncSendNext(InjectPredictedOrbitsData(p), r.reply, w0, rs0,
                             XtraMessages(data, replies, part - 1), XtraReplies(replies, part - 1));
      if status != ClientSuccess || r.reply.ind != QmiSuccess || part != r.partNum {
        lenInjected' := lenInjected;
      } else {
        lenInjected' := lenInjected + partLen;
      }
    }

    // ------------------------------------------------------ SUPL certificates

    /** installAGpsCert: slots 0..9 are walked with the mask shifted right
        once per slot; each writable slot gets the next usable certificate,
        or is cleared (a fake certificate, then a delete) when none is left.
        Failures are only logged. */
    method InstallAGpsCert(certs: seq<Cert>, slotBitMask: nat, replies: seq<Reply>)
      requires |replies| == |WalkRequests(SlotBits(slotBitMask, MAX_SLOTS), certs, MAX_SLOTS)|
      modifies this`wire, this`mResenders
      ensures Exchanged(old(wire), old(mResenders), CertMessages(WalkRequests(SlotBits(slotBitMask, MAX_SLOTS), certs, MAX_SLOTS)), replies)
    {
      ghost var bits := SlotBits(slotBitMask, MAX_SLOTS);
      var certIndex := 0;
      var slot := 0;
      var mask := slotBitMask;
      var j := 0;  // the next reply
      while slot < MAX_SLOTS
        invariant 0 <= slot <= MAX_SLOTS
        invariant mask == Shifted(slotBitMask, slot)
        invariant certIndex == SlotWalk(bits, certs, slot).certIndex
        invariant j == |WalkRequests(bits, certs, slot)| <= |replies|
        invariant Exchanged(old(wire), old(mResenders), CertMessages(WalkRequests(bits, certs, slot)), replies[..j])
      {
        certIndex, j := InstallNextSlot(certs, slotBitMask, slot, mask, certIndex, replies, j, old(wire), old(mResenders));
        slot := slot + 1;
        mask := mask / 2;
      }
      assert replies[..j] == replies;
    }

    /** installAGpsCert's loop body, slot by slot against the walk. */
    method InstallNextSlot(certs: seq<Cert>, slotBitMask: nat, slot: nat, mask: nat, certIndex: nat, replies: seq<Reply>, j: nat,
                           ghost w0: seq<Call>, ghost rs0: seq<Resender>) returns (certIndex': nat, j': nat)
      requires slot < MAX_SLOTS && mask == Shifted(slotBitMask, slot)
      requires |replies| == |WalkRequests(SlotBits(slotBitMask, MAX_SLOTS), certs, MAX_SLOTS)|
      requires certIndex == SlotWalk(SlotBits(slotBitMask, MAX_SLOTS), certs, slot).certIndex
      requires j == |WalkRequests(SlotBits(slotBitMask, MAX_SLOTS), certs, slot)| <= |replies|
      requires Exchanged(w0, rs0, CertMessages(WalkRequests(SlotBits(slotBitMask, MAX_SLOTS), certs, slot)), replies[..j])
      modifies this`wire, this`mResenders
      ensures var bits := SlotBits(slotBitMask, MAX_SLOTS);
        certIndex' == SlotWalk(bits, certs, slot + 1).certIndex &&
        j' == |WalkRequests(bits, certs, slot + 1)| <= |replies| &&
        Exchanged(w0, rs0, CertMessages(WalkRequests(bits, certs, slot + 1)), replies[..j'])
    {
      ghost var bits := SlotBits(slotBitMask, MAX_SLOTS);
      WalkRequestsPrefix(bits, certs, slot + 1, MAX_SLOTS);
      WalkRequestsStep(bits, certs, slot);
      ghost var slotReqs := SlotRequests(certs, slot, Step(bits, certs, slot, certIndex));
      CertMessagesAppend(WalkRequests(bits, certs, slot), slotReqs);
      certIndex', j' := InstallSlot(certs, slot, mask % 2 == 1, certIndex, replies, j, w0, rs0,
                                    CertMessages(WalkRequests(bits, certs, slot)));
    }

    /** One slot of installAGpsCert: the next usable certificate is
        installed, or the slot is cleared, or nothing is sent. */
    method InstallSlot(certs: seq<Cert>, slot: nat, writable: bool, certIndex: nat, replies: seq<Reply>, j: nat,
                       ghost w0: seq<Call>, ghost rs0: seq<Resender>, ghost reqs: seq<Request>)
      returns (certIndex': nat, j': nat)
      requires j + |SlotRequests(certs, slot, Outcome(writable, certs, certIndex))| <= |replies|
      requires Exchanged(w0, rs0, reqs, replies[..j])
      modifies this`wire, this`mResenders
      ensures var o := Outcome(writable, certs, certIndex);
        certIndex' == certIndex + (if o.Installed? then 1 else 0) &&
        j' == j + |SlotRequests(certs, slot, o)| &&
        Exchanged(w0, rs0, reqs + CertMessages(SlotRequests(certs, slot, o)), replies[..j'])
    {
      ghost var o := Outcome(writable, certs, certIndex);
      ghost var reps := replies[..j];
      if writable {
        if certIndex < |certs| && certs[certIndex].data.Some? && |certs[certIndex].data.value| > 0 {
          var req := SuplCertificate(InjectSuplCertificate(slot, certs[certIndex].data.value));
          assert CertMessages(SlotRequests(certs, slot, o)) == [req];
          assert replies[..j + 1] == reps + [replies[j]];
          var _ := SyncSendNext(req, replies[j], w0, rs0, reqs, reps);
          j' := j + 1;
          certIndex' := certIndex + 1;
        } else {
          var fake := SuplCertificate(InjectSuplCertificate(slot, FAKE_CERT));
          var del := SuplCertificate(DeleteSuplCertificate(slot));
          assert CertMessages(SlotRequests(certs, slot, o)) == [fake, del];
          assert replies[..j + 2] == reps + [replies[j], replies[j + 1]];
          SendPair(fake, del, replies[j], replies[j + 1], w0, rs0, reqs, reps);
          j' := j + 2;
          certIndex' := certIndex;
        }
      } else {
        assert CertMessages(SlotRequests(certs, slot, o)) == [];
        assert reqs + [] == reqs;
        j', certIndex' := j, certIndex;
      }
    }

    /** Two synchronous sends in a row. */
    method SendPair(a: Request, b: Request, ra: Reply, rb: Reply, ghost w0: seq<Call>, ghost rs0: seq<Resender>,
                    ghost reqs: seq<Request>, ghost reps: seq<Reply>)
      requires Exchanged(w0, rs0, reqs, reps)
      modifies this`wire, this`mResenders
      ensures Exchanged(w0, rs0, reqs + [a, b], reps + [ra, rb])
    {
      var _ := SyncSendNext(a, ra, w0, rs0, reqs, reps);
      var _ := SyncSendNext(b, rb, w0, rs0, reqs + [a], reps + [ra]);
      assert reqs + [a] + [b] == reqs + [a, b];
      assert reps + [ra] + [rb] == reps + [ra, rb];
    }

    // ------------------------------------------------------ configuration

    /** setGpsLock. */
    method SetGpsLock(lock: GpsLock, reply: Reply) returns (err: LocationError)
      modifies this`wire, this`mResenders
      ensures err == ConfigResult(reply)
      ensures Exchanged(old(wire), old(mResenders), [SetEngineLock(ConvertGpsLockMask(lock))], [reply])
    {
      var status := SyncSendNext(SetEngineLock(ConvertGpsLockMask(lock)), reply, old(wire), old(mResenders), [], []);
      err := if status != ClientSuccess || reply.ind != QmiSuccess then LocationGeneralFailure else LocationSuccess;
    }

    /** getGpsLock: the lock type the indication carries, or -1 when the
        request failed or the lock type is absent. */
    method GetGpsLock(reply: Reply, lockType: Option<int>) returns (ret: int)
      modifies this`wire, this`mResenders
      ensures ret == if Succeeded(reply) && lockType.Some? then lockType.value else -1
      ensures Exchanged(old(wire), old(mResenders), [GetEngineLock], [reply])
    {
      var status := SyncSendNext(GetEngineLock, reply, old(wire), old(mResenders), [], []);
      if status != ClientSuccess || reply.ind != QmiSuccess {
        ret := -1;
      } else if lockType.Some? {
        ret := lockType.value;
      } else {
        ret := -1;
      }
    }

    /** setXtraVersionCheck. */
    method SetXtraVersionCheck(check: int, reply: Reply) returns (err: LocationError)
      modifies this`wire, this`mResenders
      ensures err == ConfigResult(reply)
      ensures Exchanged(old(wire), old(mResenders), [Request.SetXtraVersionCheck(XtraVersionCheckOf(check))], [reply])
    {
      var status := SyncSendNext(Request.SetXtraVersionCheck(XtraVersionCheckOf(check)), reply, old(wire), old(mResenders), [], []);
      err := if status != ClientSuccess || reply.ind != QmiSuccess then LocationGeneralFailure else LocationSuccess;
    }

    /** setSUPLVersion. */
    method SetSuplVersion(version: SuplVersion, reply: Reply) returns (err: LocationError)
      modifies this`wire, this`mResenders
      ensures err == ConfigResult(reply)
      ensures Exchanged(old(wire), old(mResenders), [SetProtocolConfigSupl(QmiSuplVersionOf(version))], [reply])
    {
      var status := SyncSendNext(SetProtocolConfigSupl(QmiSuplVersionOf(version)), reply, old(wire), old(mResenders), [], []);
      err := if status != ClientSuccess || reply.ind != QmiSuccess then LocationGeneralFailure else LocationSuccess;
    }

    /** setLPPConfig. */
    method SetLppConfig(profile: LppProfile, reply: Reply) returns (err: LocationError)
      modifies this`wire, this`mResenders
      ensures err == ConfigResult(reply)
      ensures Exchanged(old(wire), old(mResenders), [SetProtocolConfigLpp(LppConfigOf(profile))], [reply])
    {
      var status := SyncSendNext(SetProtocolConfigLpp(LppConfigOf(profile)), reply, old(wire), old(mResenders), [], []);
      err := if status != ClientSuccess || reply.ind != QmiSuccess then LocationGeneralFailure else LocationSuccess;
    }

    /** atlOpenStatus: an unknown bearer on success is refused with
        INVALID_HANDLE before anything is sent; otherwise the connection
        status is sent and the library status converted. */
    method AtlOpenStatus(handle: int, isSucc: bool, apn: Option<string>, bearer: Bearer, reply: Reply) returns (err: AdapterErr)
      modifies this`wire, this`mResenders
      ensures AtlOpenRequest(handle, isSucc, apn, bearer).None? ==>
        err == ErrInvalidHandle && unchanged(this`wire, this`mResenders)
      ensures AtlOpenRequest(handle, isSucc, apn, bearer).Some? ==>
        err == ConvertErr(reply.status) &&
        Exchanged(old(wire), old(mResenders), [InformLocationServerConnStatus(AtlOpenRequest(handle, isSucc, apn, bearer).value)], [reply])
    {
      var conn := AtlOpenRequest(handle, isSucc, apn, bearer);
      if conn.None? {
        return ErrInvalidHandle;
      }
      var status := SyncSendNext(InformLocationServerConnStatus(conn.value), reply, old(wire), old(mResenders), [], []);
      err := ConvertErr(status);
    }

    // ------------------------------------------------------ measurements

    /** convertGnssClock's counter logic: with both the extended system time
        and the clock-reset count valid, the first report of a session, a
        changed reset count or a reference count that did not advance bumps
        the local discontinuity count (uint32_t, wrapping), the session is no
        longer new, and the counts are remembered. Otherwise the four
        counter fields keep what they held. */
    twostate predicate ClockCounted(c: ClockInfo)
      requires old(Valid())
      reads this
    {
      if c.systemTimeExtValid && c.numClockResetsValid then
        var bump := old(mMeasurementsStarted) || old(oldDiscCount) != c.numClockResets || c.refFCount <= old(oldRefFCount);
        !mMeasurementsStarted &&
        localDiscCount == (if bump then IncUint32(old(localDiscCount)) else old(localDiscCount)) &&
        oldDiscCount == c.numClockResets && oldRefFCount == c.refFCount
      else
        mMeasurementsStarted == old(mMeasurementsStarted) && localDiscCount == old(localDiscCount) &&
        oldDiscCount == old(oldDiscCount) && oldRefFCount == old(oldRefFCount)
    }

    /** convertGnssClock: the counters move as ClockCounted says; with both
        flags valid the clock takes the local count and timeNs, and msInWeek
        is systemMsec cast to int; otherwise the clock is kept and msInWeek
        is -1. */
    method ConvertGnssClock(clock: GnssClock, c: ClockInfo) returns (msInWeek: int, out: GnssClock)
      requires Valid() && ClockInRange(c)
      modifies this`mMeasurementsStarted, this`oldRefFCount, this`oldDiscCount, this`localDiscCount
      ensures Valid()
      ensures ClockCounted(c)
      ensures !(c.systemTimeExtValid && c.numClockResetsValid) ==>
        msInWeek == -1 && out == clock
      ensures c.systemTimeExtValid && c.numClockResetsValid ==>
        out == GnssClock(localDiscCount, c.refFCount * 1000000) &&
        msInWeek == Uint32ToInt(c.systemMsec)
    {
      msInWeek := -1;
      out := clock;
      if c.systemTimeExtValid && c.numClockResetsValid {
        var newRefFCount := c.refFCount;
        var newDiscCount := c.numClockResets;
        if mMeasurementsStarted || oldDiscCount != newDiscCount || newRefFCount <= oldRefFCount {
          if mMeasurementsStarted {
            mMeasurementsStarted := false;
          }
          localDiscCount := IncUint32(localDiscCount);
        }
        oldDiscCount := newDiscCount;
        oldRefFCount := newRefFCount;
        out := GnssClock(localDiscCount, c.refFCount * 1000000);
        msInWeek := Uint32ToInt(c.systemMsec);
      }
    }

    /** reportGnssMeasurementData: indications 1..maxMessageNum of a burst
        are collected (sequence number 1 starts a new burst; a sequence
        number past the maximum is ignored). The GPS indication carries the
        clock. The burst is delivered at its last indication when it holds
        measurements and the GPS indication was seen. */
    method ReportGnssMeasurementData(r: MeasReport) returns (delivered: Option<MeasurementsNotification>)
      requires Valid() && ClockInRange(r.clock)
      modifies this`burst, this`burstClock, this`gpsReceived, this`burstMsInWeek,
               this`mMeasurementsStarted, this`oldRefFCount, this`oldDiscCount, this`localDiscCount
      ensures Valid()
      ensures r.seqNum > r.maxMessageNum ==> delivered.None?
      ensures r.seqNum > r.maxMessageNum ==>
        unchanged(this`burst, this`burstClock, this`gpsReceived, this`burstMsInWeek,
                  this`mMeasurementsStarted, this`oldRefFCount, this`oldDiscCount, this`localDiscCount)
      ensures r.seqNum <= r.maxMessageNum ==>
        burst == (if r.seqNum == 1 then [] else old(burst)) + BurstEntries(r) &&
        gpsReceived == (r.system == SysGps || (r.seqNum != 1 && old(gpsReceived))) &&
        (var clock0 := if r.seqNum == 1 then ZeroClock else old(burstClock);
         burstClock == (if r.system == SysGps && r.clock.systemTimeExtValid && r.clock.numClockResetsValid
                        then GnssClock(localDiscCount, r.clock.refFCount * 1000000) else clock0)) &&
        (r.system != SysGps ==>
           burstMsInWeek == (if r.seqNum == 1 then -1 else old(burstMsInWeek)) &&
           unchanged(this`mMeasurementsStarted, this`oldRefFCount, this`oldDiscCount, this`localDiscCount)) &&
        (r.system == SysGps ==> ClockCounted(r.clock)) &&
        (r.system == SysGps ==> burstMsInWeek == (if r.clock.systemTimeExtValid && r.clock.numClockResetsValid
                                                 then Uint32ToInt(r.clock.systemMsec) else -1)) &&
        (delivered.Some? <==> r.maxMessageNum == r.seqNum && |burst| > 0 && gpsReceived) &&
        (delivered.Some? ==> delivered.value == MeasurementsNotification(burst, burstClock, burstMsInWeek))
    {
      delivered := None;
      if r.seqNum > r.maxMessageNum {
        return;
      }
      if r.seqNum == 1 {
        burst := [];
        burstClock := ZeroClock;
        gpsReceived := false;
        burstMsInWeek := -1;
      }
      ghost var start := burst;
      if r.svMeasurementValid {
        var index := 0;
        while index < |r.svMeasurement|
          modifies this`burst
          invariant 0 <= index <= |r.svMeasurement|
          invariant burst == start + BurstEntries(r)[..index]
        {
          burst := burst + [ConvertGnssMeasurement(r.system, r.svMeasurement[index], r.gloTime)];
          index := index + 1;
        }
        assert BurstEntries(r)[..index] == BurstEntries(r);
      } else {
        assert burst == start + BurstEntries(r);
      }
      if r.system == SysGps {
        gpsReceived := true;
        var ms, clock := ConvertGnssClock(burstClock, r.clock);
        burstMsInWeek, burstClock := ms, clock;
      }
      if r.maxMessageNum == r.seqNum && |burst| > 0 && gpsReceived {
        delivered := Some(MeasurementsNotification(burst, burstClock, burstMsInWeek));
      }
    }
  }
}
