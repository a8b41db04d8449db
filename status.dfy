// Status codes exchanged with the QMI-LOC client library and the
// adapter's own error codes, and the translation between them.

module Status {

  /** An optional value. */
  datatype Option<T> = None | Some(value: T)

  /** Result of a call into the QMI-LOC client library (locClientStatusEnumType). */
  datatype ClientStatus =
    | ClientSuccess
    | FailureGeneral
    | FailureUnsupported
    | FailureInvalidParameter
    | FailureEngineBusy
    | FailurePhoneOffline
    | FailureTimeout
    | FailureServiceNotPresent
    | FailureInternal
    | FailureInvalidHandle
    | FailureOther(code: int)   // any code the adapter has no case for

  /** Status carried in a QMI-LOC indication message (qmiLocStatusEnumT_v02). */
  datatype QmiStatus =
    | QmiSuccess
    | QmiGeneralFailure
    | QmiUnsupported
    | QmiInvalidParameter
    | QmiEngineBusy
    | QmiPhoneOffline
    | QmiTimeout
    | QmiOther(code: int)

  /** The adapter's error enumeration (loc_api_adapter_err). */
  datatype AdapterErr =
    | ErrSuccess
    | ErrGeneralFailure
    | ErrUnsupported
    | ErrInvalidHandle
    | ErrInvalidParameter
    | ErrEngineBusy
    | ErrPhoneOffline
    | ErrTimeout
    | ErrServiceNotPresent
    | ErrInternal
    | ErrFailure

  /** The location API's error enumeration (LocationError). */
  datatype LocationError =
    | LocationSuccess
    | LocationGeneralFailure
    | LocationInvalidParameter

  /** What a synchronous request hands back: the library status and the
      status field of the indication it waited for. */
  datatype Reply = Reply(status: ClientStatus, ind: QmiStatus)

  /** The usual success test of a synchronous request. */
  predicate Succeeded(r: Reply) {
    r.status == ClientSuccess && r.ind == QmiSuccess
  }

  /** `locSyncSendReq` treats a request as "engine busy" when the library says
      so, or when the library succeeded and the indication's status word says so. */
  predicate IsBusy(r: Reply) {
    r.status == FailureEngineBusy || (r.status == ClientSuccess && r.ind == QmiEngineBusy)
  }

  /** The library statuses that `convertErr` has a case for. */
  predicate KnownStatus(s: ClientStatus) {
    !s.FailureOther?
  }

  /** convertErr: one adapter error per known library status, FAILURE for the rest. */
  function ConvertErr(s: ClientStatus): (e: AdapterErr)
    ensures (e == ErrSuccess) <==> (s == ClientSuccess)
    ensures (e == ErrFailure) <==> !KnownStatus(s)
    ensures KnownStatus(s) ==> StatusOfErr(e) == s
  {
    match s
    case ClientSuccess => ErrSuccess
    case FailureGeneral => ErrGeneralFailure
    case FailureUnsupported => ErrUnsupported
    case FailureInvalidParameter => ErrInvalidParameter
    case FailureEngineBusy => ErrEngineBusy
    case FailurePhoneOffline => ErrPhoneOffline
    case FailureTimeout => ErrTimeout
    case FailureInvalidHandle => ErrInvalidHandle
    case FailureServiceNotPresent => ErrServiceNotPresent
    case FailureInternal => ErrInternal
    case FailureOther(_) => ErrFailure
  }

  /** Reference inverse of ConvertErr on the known statuses. ErrFailure has no
      single preimage; it is sent to FailureGeneral by convention. */
  function StatusOfErr(e: AdapterErr): ClientStatus {
    match e
    case ErrSuccess => ClientSuccess
    case ErrGeneralFailure => FailureGeneral
    case ErrUnsupported => FailureUnsupported
    case ErrInvalidParameter => FailureInvalidParameter
    case ErrEngineBusy => FailureEngineBusy
    case ErrPhoneOffline => FailurePhoneOffline
    case ErrTimeout => FailureTimeout
    case ErrInvalidHandle => FailureInvalidHandle
    case ErrServiceNotPresent => FailureServiceNotPresent
    case ErrInternal => FailureInternal
    case ErrFailure => FailureGeneral
  }

  /** Two distinct known statuses never collapse to the same adapter error. */
  lemma ConvertErrInjective(s: ClientStatus, t: ClientStatus)
    requires KnownStatus(s) && KnownStatus(t) && ConvertErr(s) == ConvertErr(t)
    ensures s == t
  {
    assert StatusOfErr(ConvertErr(s)) == s;
  }
}
