// The requests the adapter sends to the QMI-LOC client library, the calls
// it makes into that library, and locSyncSendReq's busy-retry queue: a
// synchronous request that comes back "engine busy" is queued for replay.

module Transport {
  import opened Status
  import opened EventMasks
  import opened Mappers
  import opened Deletion
  import opened Xtra
  import opened Certs

  /** eQMI_SYSTEM_* constellations of the measurement / polynomial report configuration. */
  datatype Constellation = ConstGps | ConstGlo | ConstBds | ConstGal | ConstQzss

  const AllConstellations: set<Constellation> := {ConstGps, ConstGlo, ConstBds, ConstGal, ConstQzss}

  /** The QMI-LOC request messages of the modelled operations, with their payloads. */
  datatype Request =
    | SetOperationMode(mode: OperationMode)
    | Start(start: StartReq)
    | Stop(sessionId: int)
    | DeleteGnssServiceData(del: DeleteGnssServiceDataReq)
    | DeleteAssistData(legacy: DeleteAssistDataReq)
    | InjectPredictedOrbitsData(part: XtraPart)
    | SuplCertificate(cert: CertRequest)
    | SetGnssConstRepConfig(measReport: set<Constellation>, svPolyReport: Option<set<Constellation>>)
    | SetEngineLock(lock: QmiLock)
    | GetEngineLock
    | SetXtraVersionCheck(checkMode: XtraVersionCheck)
    | SetProtocolConfigSupl(version: QmiSuplVersion)
    | SetProtocolConfigLpp(planes: set<LppPlane>)
    | InformLocationServerConnStatus(conn: ConnStatusReq)
    | QueryAonConfig(transactionId: int)
    | GetSupportedFeature

  /** A queued replay: the request and the timeout it was first sent with. */
  datatype Resender = Resender(req: Request, timeoutMs: nat)

  /** A call into the client library. `readsInd` is false for a replay,
      which passes a null indication pointer. */
  datatype Call =
    | ClientOpen(mask: set<QmiEvent>)
    | ClientClose
    | ClientRegister(mask: set<QmiEvent>)
    | ClientSupportMsgCheck
    | SyncSend(req: Request, timeoutMs: nat, readsInd: bool)
    | AsyncSend(req: Request)

  /** The calls made by a run of synchronous sends and the queue after it. */
  datatype Sent = Sent(calls: seq<Call>, resenders: seq<Resender>)

  /** locSyncSendReq: send and wait; on a busy reply queue one replay, and
      if the queue was empty and ENGINE_STATE is not registered, register it
      on top of mQmiMask (mQmiMask itself is not updated). */
  function SyncSendStep(qmiMask: set<QmiEvent>, rs: seq<Resender>, req: Request, timeoutMs: nat, reply: Reply): (s: Sent)
    ensures IsBusy(reply) ==> s.resenders == rs + [Resender(req, timeoutMs)]
    ensures !IsBusy(reply) ==> s.resenders == rs
    ensures |s.calls| <= 2
    ensures |s.calls| == 2 <==> IsBusy(reply) && rs == [] && QEngineState !in qmiMask
  {
    var send := [SyncSend(req, timeoutMs, true)];
    if IsBusy(reply) then
      var reg := if rs == [] && QEngineState !in qmiMask then [ClientRegister(qmiMask + {QEngineState})] else [];
      Sent(send + reg, rs + [Resender(req, timeoutMs)])
    else Sent(send, rs)
  }

  /** A run of synchronous sends, each answered by the reply at its position. */
  function SendAll(qmiMask: set<QmiEvent>, rs: seq<Resender>, reqs: seq<Request>, timeoutMs: nat, replies: seq<Reply>): (s: Sent)
    requires |reqs| == |replies|
  {
    if reqs == [] then Sent([], rs)
    else
      var prev := SendAll(qmiMask, rs, reqs[..|reqs| - 1], timeoutMs, replies[..|replies| - 1]);
      var step := SyncSendStep(qmiMask, prev.resenders, reqs[|reqs| - 1], timeoutMs, replies[|replies| - 1]);
      Sent(prev.calls + step.calls, step.resenders)
  }

  /** One more send extends the run by one step. */
  lemma SendAllSnoc(qmiMask: set<QmiEvent>, rs: seq<Resender>, reqs: seq<Request>, timeoutMs: nat,
                    replies: seq<Reply>, req: Request, reply: Reply)
    requires |reqs| == |replies|
    ensures var prev := SendAll(qmiMask, rs, reqs, timeoutMs, replies);
      var step := SyncSendStep(qmiMask, prev.resenders, req, timeoutMs, reply);
      SendAll(qmiMask, rs, reqs + [req], timeoutMs, replies + [reply]) == Sent(prev.calls + step.calls, step.resenders)
  {
    assert (reqs + [req])[..|reqs|] == reqs;
    assert (replies + [reply])[..|replies|] == replies;
  }

  /** The busy requests of a run, in order, as queued replays. */
  function BusyQueue(reqs: seq<Request>, timeoutMs: nat, replies: seq<Reply>): (q: seq<Resender>)
    requires |reqs| == |replies|
    ensures |q| <= |reqs|
  {
    if reqs == [] then []
    else
      BusyQueue(reqs[..|reqs| - 1], timeoutMs, replies[..|replies| - 1])
      + (if IsBusy(replies[|replies| - 1]) then [Resender(reqs[|reqs| - 1], timeoutMs)] else [])
  }

  /** The requests of the SyncSend calls, in order. */
  function SentRequests(calls: seq<Call>): seq<Request> {
    if calls == [] then []
    else SentRequests(calls[..|calls| - 1]) + (if calls[|calls| - 1].SyncSend? then [calls[|calls| - 1].req] else [])
  }

  /** The number of registration calls. */
  function Registrations(calls: seq<Call>): nat {
    if calls == [] then 0
    else Registrations(calls[..|calls| - 1]) + (if calls[|calls| - 1].ClientRegister? then 1 else 0)
  }

  lemma {:induction false} SentRequestsAppend(a: seq<Call>, b: seq<Call>)
    ensures SentRequests(a + b) == SentRequests(a) + SentRequests(b)
    ensures Registrations(a + b) == Registrations(a) + Registrations(b)
    decreases |b|
  {
    if b != [] {
      var b' := b[..|b| - 1];
      assert (a + b)[..|a + b| - 1] == a + b';
      SentRequestsAppend(a, b');
    } else {
      assert a + b == a;
    }
  }

  /** Every busy reply queues exactly one replay of the same request with the
      same timeout, in the order of the replies, behind the replays already
      queued; no other reply queues anything. */
  lemma {:induction false} SendAllQueue(qmiMask: set<QmiEvent>, rs: seq<Resender>, reqs: seq<Request>, timeoutMs: nat, replies: seq<Reply>)
    requires |reqs| == |replies|
    ensures SendAll(qmiMask, rs, reqs, timeoutMs, replies).resenders == rs + BusyQueue(reqs, timeoutMs, replies)
  {
    if reqs != [] {
      SendAllQueue(qmiMask, rs, reqs[..|reqs| - 1], timeoutMs, replies[..|replies| - 1]);
    }
  }

  /** One step sends its request once and registers at most once. */
  lemma StepCalls(qmiMask: set<QmiEvent>, rs: seq<Resender>, req: Request, timeoutMs: nat, reply: Reply)
    ensures var step := SyncSendStep(qmiMask, rs, req, timeoutMs, reply);
      SentRequests(step.calls) == [req] &&
      Registrations(step.calls) == (if IsBusy(reply) && rs == [] && QEngineState !in qmiMask then 1 else 0)
  {
    var send := [SyncSend(req, timeoutMs, true)];
    assert send[..0] == [];
    assert SentRequests(send) == [req] && Registrations(send) == 0;
    if IsBusy(reply) && rs == [] && QEngineState !in qmiMask {
      var calls := send + [ClientRegister(qmiMask + {QEngineState})];
      assert calls[..1] == send;
      assert SyncSendStep(qmiMask, rs, req, timeoutMs, reply).calls == calls;
    } else {
      assert SyncSendStep(qmiMask, rs, req, timeoutMs, reply).calls == send;
    }
  }

  /** Each request of the run is sent once, in order, whatever the replies. */
  lemma {:induction false} SendAllSendsEach(qmiMask: set<QmiEvent>, rs: seq<Resender>, reqs: seq<Request>, timeoutMs: nat, replies: seq<Reply>)
    requires |reqs| == |replies|
    ensures SentRequests(SendAll(qmiMask, rs, reqs, timeoutMs, replies).calls) == reqs
  {
    if reqs != [] {
      var init := reqs[..|reqs| - 1];
      var prev := SendAll(qmiMask, rs, init, timeoutMs, replies[..|replies| - 1]);
      var step := SyncSendStep(qmiMask, prev.resenders, reqs[|reqs| - 1], timeoutMs, replies[|replies| - 1]);
      SendAllSendsEach(qmiMask, rs, init, timeoutMs, replies[..|replies| - 1]);
      SentRequestsAppend(prev.calls, step.calls);
      StepCalls(qmiMask, prev.resenders, reqs[|reqs| - 1], timeoutMs, replies[|replies| - 1]);
      assert reqs == init + [reqs[|reqs| - 1]];
    }
  }

  /** ENGINE_STATE is registered at most once per run: only when the queue
      starts empty, the bit is not in mQmiMask and some reply is busy. */
  lemma {:induction false} SendAllRegistersOnce(qmiMask: set<QmiEvent>, rs: seq<Resender>, reqs: seq<Request>, timeoutMs: nat, replies: seq<Reply>)
    requires |reqs| == |replies|
    ensures var s := SendAll(qmiMask, rs, reqs, timeoutMs, replies);
      Registrations(s.calls) == (if rs == [] && QEngineState !in qmiMask && BusyQueue(reqs, timeoutMs, replies) != [] then 1 else 0)
  {
    SendAllQueue(qmiMask, rs, reqs, timeoutMs, replies);
    if reqs != [] {
      var init := reqs[..|reqs| - 1];
      var rinit := replies[..|replies| - 1];
      var prev := SendAll(qmiMask, rs, init, timeoutMs, rinit);
      SendAllRegistersOnce(qmiMask, rs, init, timeoutMs, rinit);
      SendAllQueue(qmiMask, rs, init, timeoutMs, rinit);
      var step := SyncSendStep(qmiMask, prev.resenders, reqs[|reqs| - 1], timeoutMs, replies[|replies| - 1]);
      SentRequestsAppend(prev.calls, step.calls);
      StepCalls(qmiMask, prev.resenders, reqs[|reqs| - 1], timeoutMs, replies[|replies| - 1]);
    }
  }

  /** The engine-OFF replay: every queued request, in queue order, sent
      again without reading an indication. */
  function Replays(rs: seq<Resender>): (calls: seq<Call>)
    ensures |calls| == |rs|
    ensures forall i :: 0 <= i < |rs| ==> calls[i] == SyncSend(rs[i].req, rs[i].timeoutMs, false)
  {
    seq(|rs|, i requires 0 <= i < |rs| => SyncSend(rs[i].req, rs[i].timeoutMs, false))
  }

  /** A replay never registers anything and never queues a replay of its own. */
  lemma {:induction false} ReplaysSendQueueInOrder(rs: seq<Resender>)
    ensures Registrations(Replays(rs)) == 0
    ensures |SentRequests(Replays(rs))| == |rs|
    ensures forall i :: 0 <= i < |rs| ==> SentRequests(Replays(rs))[i] == rs[i].req
  {
    if rs != [] {
      var init := rs[..|rs| - 1];
      ReplaysSendQueueInOrder(init);
      assert Replays(rs)[..|rs| - 1] == Replays(init);
    }
  }
}
