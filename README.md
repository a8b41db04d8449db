# LocApiV02 in Dafny

A model of `LocApiV02`, the adapter between a location-engine client and a modem that speaks the QMI-LOC request/indication protocol. It covers:

- the adapter's subscription state: the consumer event mask `mMask`, the registered QMI mask `mQmiMask`, `mInSession`, `mEngineOn` and `mMeasurementsStarted`;
- the engine-busy replay queue `mResenders`;
- the aiding-data deletion with its one-way fallback to the legacy message;
- the chunked XTRA (predicted orbits) injection;
- the SUPL certificate slot walk;
- the tri-state measurement-support cache;
- the burst reassembly of GNSS measurement reports and the clock-discontinuity counter;
- the field transcoders and enumeration mappers.

The adapter object is the class `Adapter.LocApi`. Its fields are the adapter's member variables. The function-local statics of the C++ code are also fields, because they live as long as the process:

- the `isNewApiSupported` latch of `deleteAidingData`;
- the counters of `convertGnssClock`;
- the burst buffer, `bGPSreceived` and `msInWeek` of `reportGnssMeasurementData`.

The QMI-LOC client library is not modelled. Each call into it is appended to the ghost log `wire`:

- `locClientOpen`, `locClientClose` and `locClientRegisterEventMask`;
- `loc_sync_send_req` and `locClientSendReq`;
- `locClientSupportMsgCheck`.

Whatever the library or the modem answers is a parameter of the method: the library status, and the status field of the indication a synchronous request waits for (`Status.Reply`). The outcome of a registration is a boolean for the same reason. `Transport.SendAll` specifies a run of synchronous requests: which calls they make and how the busy queue grows. Every operation that sends requests is proved to leave `wire` and `mResenders` as `SendAll` prescribes for exactly the requests it builds, in order.

Bit masks are sets of enumeration constructors (the navigation-solution mask, on bit numbers, is the one exception): `&`, `|` and `& ~` become `*`, `+` and `-`. Integer fields are unbounded, except where a C width matters to the result:

- `uint16_t` and `int16_t` satellite ids;
- the `uint32_t` discontinuity counter, which wraps;
- the `uint32_t` to `int` cast of `msInWeek`.

Each of these is written out in module `Gnss`.

Modules:

| module | file | what it holds |
|---|---|---|
| `Status` | status.dfy | library and indication statuses, adapter errors, `convertErr` |
| `Gnss` | gnss.dfy | constellations, the carrier-frequency table, integer-width helpers |
| `EventMasks` | event_masks.dfy | `convertMask`, `adjustMaskIfNoSession` |
| `Mappers` | mappers.dfy | the enumeration mappers and the request builders of `startFix`, `injectPosition`, `setServer`, `atlOpenStatus` |
| `Deletion` | deletion.dfy | the two deletion requests of `deleteAidingData` |
| `Xtra` | xtra.dfy | the part arithmetic of `setXtraData` |
| `Certs` | certs.dfy | the slot walk of `installAGpsCert` |
| `SvReport` | sv_report.dfy | `reportSv`, `reportSvMeasurement`, `reportSvPolynomial` |
| `Measurements` | measurements.dfy | `convertGnssMeasurements` |
| `Confidence` | confidence.dfy | `scaleAccuracyTo68PercentConfidence` |
| `Transport` | transport.dfy | `locSyncSendReq`'s send-and-queue step, runs of sends, the engine-off replay |
| `Adapter` | adapter.dfy | the `LocApi` class and the exchanges its operations perform |

## Behaviour that follows the code

The model does what `LocApiV02.cpp` does in these places, where a natural reading of the adapter's purpose would suggest otherwise:

- `setXtraData` does not stop at a rejected part. It sends parts 1..`total_parts` every time. A rejected part is not retried. The next part number carries the same bytes again. The result is the library status of the last part, so an indication failure or a part-number mismatch on the last part still returns success (`Adapter.LocApi.SetXtraData`, `Xtra.RejectedPartRepeated`).
- The busy queue is replayed when the engine turns OFF, not ON (`Adapter.LocApi.Proc`).
- `reportSvMeasurement` decides that an entry is filled from its whole 64-bit status word but stores the word cast to uint32_t, and never copies the validity mask. An entry whose only status bits are at 32 or above is counted in `numSvs` and stored with no status (`SvReport.Copied`, `SvReport.FilledButCopiedEmpty`).
- `startFix` returns success when the operation-mode request is accepted by the library but its indication reports a failure: START is then not sent, and the result is `convertErr` of the library status (`Adapter.LocApi.SendModeAndStart`).
- `deleteAidingData` reports success when the new message fails for any reason other than UNSUPPORTED or INTERNAL. Only a failing legacy message sets the error (`Adapter.LocApi.DeleteAidingData`).

## Model

| member | source | states |
|---|---|---|
| Status.ConvertErr | loc_api/loc_api_v02/LocApiV02.cpp:2208-2247 | the adapter error is SUCCESS exactly for library success, FAILURE exactly for a status without a case, and every known status is recovered from its error |
| Status.ConvertErrInjective | loc_api/loc_api_v02/LocApiV02.cpp:2208-2247 | two known library statuses with the same adapter error are the same status |
| Gnss.CarrierFrequencyHz | loc_api/loc_api_v02/LocApiV02.cpp:51-58 | the nominal carrier of a constellation, in whole Hz, is 0 exactly for UNKNOWN |
| Gnss.ToUint16 | loc_api/loc_api_v02/LocApiV02.cpp:2570-2608 | storing into a uint16_t field gives a value in 0..65535 congruent to the input, and keeps in-range values |
| Gnss.ToInt16 | loc_api/loc_api_v02/LocApiV02.cpp:3647-3698 | storing into an int16_t field gives a value in -32768..32767 congruent to the input, and keeps in-range values |
| Gnss.IncUint32 | loc_api/loc_api_v02/LocApiV02.cpp:3892 | a uint32_t increment adds one and wraps to 0 past the largest value |
| Gnss.Uint32ToInt | loc_api/loc_api_v02/LocApiV02.cpp:3902 | the cast of a uint32_t to int keeps values below 2^31 and makes larger ones negative |
| EventMasks.ConvertMask | loc_api/loc_api_v02/LocApiV02.cpp:2082-2190 | a QMI event bit is in the result exactly when one of the adapter bits that request it is in the input |
| EventMasks.ConvertMaskUnion | loc_api/loc_api_v02/LocApiV02.cpp:2082-2190 | the translation of a union is the union of the translations |
| EventMasks.SingleBitMask | loc_api/loc_api_v02/LocApiV02.cpp:2082-2190 | the mask of one adapter bit is exactly the set of QMI bits that bit requests |
| EventMasks.ConvertMaskAliases | loc_api/loc_api_v02/LocApiV02.cpp:2082-2190 | both NMEA bits give only the NMEA indication, both measurement bits give only the measurement report, and the assistance-data bit gives the XTRA and time requests |
| EventMasks.ConvertMaskIgnoresUnmapped | loc_api/loc_api_v02/LocApiV02.cpp:2082-2190 | an adapter bit without a QMI counterpart leaves the mask unchanged |
| EventMasks.AdjustMaskIfNoSession | loc_api/loc_api_v02/LocApiV02.cpp:469-484 | in a session the mask is returned unchanged; outside one, the result is a subset of the input, holds no tracking bit, and only tracking bits are removed |
| EventMasks.AdjustIdempotent | loc_api/loc_api_v02/LocApiV02.cpp:469-484 | adjusting twice equals adjusting once, and the no-session mask is contained in the in-session mask |
| EventMasks.NoSessionDropsTracking | loc_api/loc_api_v02/LocApiV02.cpp:469-484 | outside a session POSITION_REPORT, GNSS_SV_INFO, NMEA, ENGINE_STATE and GNSS_MEASUREMENT_REPORT are never registered, and non-tracking requests such as NI and assistance data still are |
| EventMasks.EffectiveMaskEmpty | loc_api/loc_api_v02/LocApiV02.cpp:458-484 | an empty adapter mask registers no indication, in or out of a session |
| Mappers.ConvertGpsLockMask | loc_api/loc_api_v02/LocApiV02.cpp:2192-2205 | MO gives the mobile-initiated lock, NI the mobile-terminated lock, MO and NI together lock all, and anything else gives no lock, each as an if-and-only-if |
| Mappers.GpsLockRoundTrip | loc_api/loc_api_v02/LocApiV02.cpp:2192-2205 | the QMI lock converted back and forth is itself, and every known consumer lock survives the round trip |
| Mappers.ConvertNiEncoding | loc_api/loc_api_v02/LocApiV02.cpp:3454-3478 | the SUPL UTF-8 and UCS-2 codes map to themselves, SUPL GSM default and unspecified SS language map to GSM default, and every other code has no encoding |
| Mappers.ConvertNiNotifyVerifyType | loc_api/loc_api_v02/LocApiV02.cpp:3481-3514 | an unknown type is refused; otherwise a verification always comes with a notification and a timeout response, the timeout response accepts exactly for "verify, allow on no response", privacy override is set only for its own type, and only "no notify, no verify" has no options |
| Mappers.NiUserResp | loc_api/loc_api_v02/LocApiV02.cpp:1168-1181 | accept, deny and no-response map one to one onto the QMI answers, and any other response is refused before anything is sent |
| Mappers.ConvertPosTechMask | loc_api/loc_api_v02/LocApiV02.cpp:4869-4898 | a consumer technology bit is set exactly when its QMI bit is, and an empty mask stays empty |
| Mappers.ConvertPosTechMaskExact | loc_api/loc_api_v02/LocApiV02.cpp:4869-4898 | two masks of known QMI bits with the same translation are equal, so nothing but unknown bits is lost |
| Mappers.TechOfQmi | loc_api/loc_api_v02/LocApiV02.cpp:4869-4898 | each known QMI technology bit is read by exactly one consumer bit |
| Mappers.ConvertNavSolutionMask | loc_api/loc_api_v02/LocApiV02.cpp:4901-4922 | a bit is in the result exactly when it is one of the four SBAS bits and set in the input |
| Mappers.NavWifiTestRedundant | loc_api/loc_api_v02/LocApiV02.cpp:4911-4912 | the test of the technology WIFI bit against the navigation mask adds nothing: the result is the same without it |
| Mappers.QmiSuplVersionOf | loc_api/loc_api_v02/LocApiV02.cpp:1637-1648 | 2.0.0 and 2.0.2 are passed on, and every other version, 1.0.0 included, is sent as 1.0 |
| Mappers.LppConfigOf | loc_api/loc_api_v02/LocApiV02.cpp:1720-1736 | the user plane is enabled exactly for the user-plane profiles and the control plane exactly for the control-plane profiles; RRLP and unknown profiles enable nothing |
| Mappers.XtraVersionCheckOf | loc_api/loc_api_v02/LocApiV02.cpp:4521-4537 | 1, 2 and 3 select auto, XTRA2 and XTRA3, and every other value disables the check |
| Mappers.Strlcpy | loc_api/loc_api_v02/LocApiV02.cpp:1288 | the bounded copy into a buffer keeps a prefix of the source shorter than the buffer: the whole source when it fits, otherwise exactly one byte less than the buffer |
| Mappers.SetServerUrlReq | loc_api/loc_api_v02/LocApiV02.cpp:1272-1289 | a negative length or one over the 256-byte buffer is refused; otherwise the request is a UMTS SLP URL that is a prefix of the input, shorter than the buffer, and the whole input when it fits |
| Mappers.SetServerIpReq | loc_api/loc_api_v02/LocApiV02.cpp:1320-1330 | address and port are passed on; MPC and custom PDE keep their kind and every other type becomes a CDMA PDE |
| Mappers.AtlOpenRequest | loc_api/loc_api_v02/LocApiV02.cpp:1497-1546 | an unknown bearer on success is refused; otherwise handle and outcome are passed on, a PDN type is present exactly on success with a valid bearer, and it names that bearer; on success a non-null APN is copied in, truncated to the 101-byte buffer and whole when it fits, and otherwise the APN name stays empty |
| Mappers.OperationModeOf | loc_api/loc_api_v02/LocApiV02.cpp:527-548 | MS-based, MS-assisted and the two reserved modes map to their own operation modes, and standalone and unknown modes run standalone |
| Mappers.BuildStartReq | loc_api/loc_api_v02/LocApiV02.cpp:571-636 | the accuracy tier is high up to 100 m, medium up to 1000 m and low above; only a low tier gets the one-minute report timeout; the interval is never shortened, and is raised to ten minutes only for a low tier; recurrence, position sharing and credentials are passed on; the session id is the default one; altitude is not assumed |
| Mappers.StartTierMonotone | loc_api/loc_api_v02/LocApiV02.cpp:577-597 | a looser accuracy preference never yields a finer tier |
| Mappers.FlooredUnc | loc_api/loc_api_v02/LocApiV02.cpp:755-757 | the advertised uncertainty is at least 1000 m and at least the raw value, and equals the raw value exactly when that is at least 1000 m |
| Mappers.BuildInjectPosition | loc_api/loc_api_v02/LocApiV02.cpp:739-806 | position and both horizontal uncertainties are always sent; the advertised one is floored and the raw one is the caller's; both are at 68% confidence; no altitude; the timestamp is the clock reading when there is one |
| Mappers.BuildInjectLocation | loc_api/loc_api_v02/LocApiV02.cpp:809-866 | each field group is sent exactly when its flag is set, the advertised horizontal uncertainty is floored as above, and the injection is an on-demand coarse position with the location's timestamp |
| Mappers.InjectPathsAgree | loc_api/loc_api_v02/LocApiV02.cpp:739-866 | both injectPosition variants advertise the same position and floored uncertainty for the same input |
| Deletion.SystemsAsWritten | loc_api/loc_api_v02/LocApiV02.cpp:942-958 | the system bits as the code sets them: GPS and GLONASS as themselves, QZSS as BDS, BeiDou as Galileo, Galileo as QZSS |
| Deletion.AsWrittenMisnamesSystems | loc_api/loc_api_v02/LocApiV02.cpp:949-956 | as written, deleting BeiDou data asks for Galileo, QZSS asks for BDS, and Galileo asks for QZSS |
| Deletion.Systems | loc_api/loc_api_v02/LocApiV02.cpp:942-958 | corrected mapping: a system bit is set exactly when its own constellation is asked for |
| Deletion.SystemsExact | loc_api/loc_api_v02/LocApiV02.cpp:942-958 | the corrected mapping sends each constellation as itself and sends nothing else |
| Deletion.NewApiRequest | loc_api/loc_api_v02/LocApiV02.cpp:883-994 | delete-all sends only the flag; otherwise the satellite block is present exactly when some SV bit is asked for and carries those bits and the corrected systems; the common block holds exactly the requested common bits other than CELLDB; CELLDB asks for the whole cell database |
| Deletion.SvDeleteMask | loc_api/loc_api_v02/LocApiV02.cpp:1060-1069 | each legacy SV entry deletes ephemeris exactly when asked for, and almanac exactly when asked for |
| Deletion.GpsSvList | loc_api/loc_api_v02/LocApiV02.cpp:1037-1074 | the legacy list has exactly 32 entries; entry i is GPS SV i + 1 with the requested delete mask |
| Deletion.FillGpsSvList | loc_api/loc_api_v02/LocApiV02.cpp:1042-1072 | the fill loop builds exactly that list |
| Deletion.LegacyGnssData | loc_api/loc_api_v02/LocApiV02.cpp:1076-1112 | position, time, UTC and RTI are deleted exactly when asked for; ionosphere, health, SV direction and SA data exactly when asked for together with GPS |
| Deletion.BuildLegacyRequest | loc_api/loc_api_v02/LocApiV02.cpp:1029-1128 | the construction code builds exactly `LegacyRequest` |
| Deletion.LegacyRequest | loc_api/loc_api_v02/LocApiV02.cpp:1029-1128 | delete-all sends only the flag; otherwise the SV list is present exactly when ephemeris or almanac is asked for GPS, the data mask exactly when some legacy bit is asked for, and CELLDB asks for the whole database |
| Deletion.LegacyIgnoresNonGps | loc_api/loc_api_v02/LocApiV02.cpp:1037-1108 | without the GPS type bit the SV mask makes no difference to the legacy request |
| Deletion.LegacyDropsNewOnlyBits | loc_api/loc_api_v02/LocApiV02.cpp:1029-1128 | steering, almanac correction, blacklist, non-existence, SV time and frequency-bias requests never change the legacy request |
| Deletion.CellDbAgrees | loc_api/loc_api_v02/LocApiV02.cpp:980-993 | both messages carry the same cell-database request, and it is always the whole database |
| Xtra.TotalParts | loc_api/loc_api_v02/LocApiV02.cpp:1384 | at least one part; an empty blob is one part; otherwise the fewest parts of at most 1024 bytes that hold the blob |
| Xtra.PartLen | loc_api/loc_api_v02/LocApiV02.cpp:1394-1401 | a part never exceeds 1024 bytes or the bytes left, and is either full or the rest of the blob |
| Xtra.Injected | loc_api/loc_api_v02/LocApiV02.cpp:1418-1430 | the injected offset after some answered parts never passes the blob's length |
| Xtra.PartAfter | loc_api/loc_api_v02/LocApiV02.cpp:1389-1404 | the next part carries the next part number, the total size and part count, at most 1024 bytes, and exactly the bytes at the injected offset |
| Xtra.AcceptedCount | loc_api/loc_api_v02/LocApiV02.cpp:1418-1430 | no more parts are accepted than were answered |
| Xtra.InjectedAtMostAccepted | loc_api/loc_api_v02/LocApiV02.cpp:1418-1430 | each accepted part advances the offset by at most one part size |
| Xtra.InjectedAllAccepted | loc_api/loc_api_v02/LocApiV02.cpp:1389-1431 | when every part is accepted, k parts inject min(k * 1024, length) bytes |
| Xtra.RejectionLowersCount | loc_api/loc_api_v02/LocApiV02.cpp:1418-1430 | one rejected part leaves fewer accepted parts than parts |
| Xtra.XtraCompleteIffAllAccepted | loc_api/loc_api_v02/LocApiV02.cpp:1384-1431 | after all parts of a non-empty blob, the whole blob is injected exactly when every part was accepted |
| Xtra.RejectedPartRepeated | loc_api/loc_api_v02/LocApiV02.cpp:1389-1430 | after a rejected part, the next part number carries the same bytes again |
| Xtra.PartCounterAsWritten | loc_api/loc_api_v02/LocApiV02.cpp:1369-1391 | the uint16_t counter after k passes never exceeds 0xFFFF |
| Xtra.AsWrittenLoopNeverEnds | loc_api/loc_api_v02/LocApiV02.cpp:1384-1391 | with a blob of exactly 0xFFFF parts the loop test holds after every pass, and the counter is 0 after pass 0xFFFF |
| Xtra.EmptyBlobIsOnePart | loc_api/loc_api_v02/LocApiV02.cpp:1384 | an empty blob is sent as one empty part and injects nothing |
| Certs.SlotBits | loc_api/loc_api_v02/LocApiV02.cpp:4564-4566 | slot s is writable exactly when the low bit of the mask, shifted right s times, is set |
| Certs.Outcome | loc_api/loc_api_v02/LocApiV02.cpp:4566-4568 | a slot is installed only from the next certificate, and only when that certificate is usable |
| Certs.CountInstalled | loc_api/loc_api_v02/LocApiV02.cpp:4564-4668 | no more installations than slots |
| Certs.SlotWalk | loc_api/loc_api_v02/LocApiV02.cpp:4563-4668 | one outcome per slot, the certificate index never passes the list, and the last slot installs only a usable certificate |
| Certs.SlotWalkCount | loc_api/loc_api_v02/LocApiV02.cpp:4563-4668 | the certificate index moves on exactly at each installation |
| Certs.CountInstalledSnoc | loc_api/loc_api_v02/LocApiV02.cpp:4563-4668 | one more slot adds one to the count exactly when it installs |
| Certs.SlotOutcomeAt | loc_api/loc_api_v02/LocApiV02.cpp:4563-4668 | each slot's outcome is decided by the certificate index the walk had reached there |
| Certs.SlotWalkMeaning | loc_api/loc_api_v02/LocApiV02.cpp:4563-4668 | exactly the non-writable slots are left alone, and the slot that installs certificate k is preceded by exactly k installations, with certificate k usable, so certificates go in list order with none skipped |
| Certs.SlotRequests | loc_api/loc_api_v02/LocApiV02.cpp:4566-4663 | an installed slot sends one injection of its certificate; a cleared slot sends the fake certificate and then the delete; a non-writable slot sends nothing |
| Certs.WalkRequestsStep | loc_api/loc_api_v02/LocApiV02.cpp:4563-4668 | the requests of one more slot are the previous requests followed by that slot's |
| Certs.WalkRequestsPrefix | loc_api/loc_api_v02/LocApiV02.cpp:4563-4668 | the requests of the first m slots open every longer walk's requests |
| Certs.SlotWalkPrefix | loc_api/loc_api_v02/LocApiV02.cpp:4563-4668 | later slots leave the outcomes of earlier slots unchanged |
| Certs.ClearedBlocksLaterSlots | loc_api/loc_api_v02/LocApiV02.cpp:4566-4640 | once a writable slot is cleared, every later writable slot is cleared too, because an unusable certificate is never skipped |
| Certs.IndexStaysBlocked | loc_api/loc_api_v02/LocApiV02.cpp:4566-4640 | once the walk reaches an unusable certificate index, the index never moves again |
| Certs.AllWritableInstallsInOrder | loc_api/loc_api_v02/LocApiV02.cpp:4563-4668 | with every slot writable and enough usable certificates, slot i gets certificate i |
| Certs.InstalledCountAll | loc_api/loc_api_v02/LocApiV02.cpp:4563-4668 | a walk with Installed(i) at each slot i counts one installation per slot |
| SvReport.ConvertSv | loc_api/loc_api_v02/LocApiV02.cpp:2564-2642 | the constellation follows the system with COMPASS and unknown systems as UNKNOWN; the id is in uint16_t range; the carrier is the table's; HAS_CARRIER_FREQUENCY is set exactly for a known constellation; ephemeris and almanac are set exactly when the info mask is valid and has them |
| SvReport.ConvertSvRoundTrip | loc_api/loc_api_v02/LocApiV02.cpp:2570-2608 | an id above its constellation's offset comes out 1-based, and adding the offset back gives the QMI id |
| SvReport.ConvertSvOffsets | loc_api/loc_api_v02/LocApiV02.cpp:2570-2608 | Galileo, BeiDou and QZSS ids are lowered by 300, 200 and 192; GPS, SBAS and GLONASS ids are kept |
| SvReport.Emitted | loc_api/loc_api_v02/LocApiV02.cpp:2557-2646 | no more entries come out than go in |
| SvReport.ScanLength | loc_api/loc_api_v02/LocApiV02.cpp:2549-2555 | no entries when the list is not valid; otherwise the list length capped at GNSS_SV_MAX |
| SvReport.ReportSv | loc_api/loc_api_v02/LocApiV02.cpp:2549-2646 | the loop emits exactly the conversions of the reportable entries among the first capped entries, in order, never more than GNSS_SV_MAX |
| SvReport.EmittedExactly | loc_api/loc_api_v02/LocApiV02.cpp:2560-2644 | an entry is emitted exactly when it is the conversion of a reportable input entry |
| SvReport.EmittedCount | loc_api/loc_api_v02/LocApiV02.cpp:2644 | `count` equals the number of reportable entries |
| SvReport.CountFilled | loc_api/loc_api_v02/LocApiV02.cpp:2843-2938 | no more filled entries than entries |
| SvReport.Copied | loc_api/loc_api_v02/LocApiV02.cpp:2847-2891 | a stored entry keeps the id and GLONASS frequency, keeps exactly the status bits below 32 (the uint32_t cast), and has an empty validity mask (never copied, left at the memset zero) |
| SvReport.FilledButCopiedEmpty | loc_api/loc_api_v02/LocApiV02.cpp:2843-2891 | an entry whose only status bit is 40 passes the 64-bit filled test but is stored with no status bits |
| SvReport.CopiedIdempotent | loc_api/loc_api_v02/LocApiV02.cpp:2890-2891 | casting a stored entry again changes nothing |
| SvReport.SlotsAsWritten | loc_api/loc_api_v02/LocApiV02.cpp:2839-2938 | as written, slot i holds the copy of input entry i when it is filled and stays empty otherwise |
| SvReport.ReportSvMeasurementAsWritten | loc_api/loc_api_v02/LocApiV02.cpp:2824-2942 | the loop as written fills slot i with the copy of entry i and sets numSvs to the number of filled entries |
| SvReport.AsWrittenHidesMeasurement | loc_api/loc_api_v02/LocApiV02.cpp:2839-2942 | an unfilled entry followed by a filled one gives numSvs 1, with slot 0 empty and the filled entry in slot 1 |
| SvReport.Filled | loc_api/loc_api_v02/LocApiV02.cpp:2843-2844 | the copies of the filled entries, in order: as many as the count, each the copy of a filled input entry |
| SvReport.ReportSvMeasurement | loc_api/loc_api_v02/LocApiV02.cpp:2824-2942 | corrected loop: the first numSvs slots hold exactly the copies of the filled entries in input order, and numSvs is their count |
| SvReport.FilledComplete | loc_api/loc_api_v02/LocApiV02.cpp:2839-2942 | the copy of every filled input entry reaches the compacted list |
| SvReport.ReportSvPolynomial | loc_api/loc_api_v02/LocApiV02.cpp:2963-3092 | nothing is reported for SV id 0; otherwise the id is kept and each is_valid bit is set exactly when its optional field is valid |
| Measurements.MeasSvType | loc_api/loc_api_v02/LocApiV02.cpp:3645-3697 | the constellation is UNKNOWN exactly for COMPASS and unknown systems |
| Measurements.ConvertGnssMeasurement | loc_api/loc_api_v02/LocApiV02.cpp:3626-3787 | the id fits int16_t; carrier frequency is flagged exactly for a known constellation; non-GLONASS carriers are the table's and GLONASS carriers lie in the G1 band; the state mask is UNKNOWN alone exactly when none of MS, bit sync (BE_CONFIRM and SB_VALID) or SM is valid; BIT_SYNC exactly with MS or bit sync; TOW and sub-frame exactly with MS; the GLONASS time-of-day and BeiDou D2 bits under their conditions; the Galileo E1B/C code lock exactly for Galileo outside UNKNOWN, the E1C second code lock exactly when status bit 30 is also set, and E1B page sync exactly when status bit 31 is also set (the intended test) |
| Measurements.ConvertGnssMeasurementAsWritten | loc_api/loc_api_v02/LocApiV02.cpp:3722-3739 | as written: the same record except for page sync, which is set for Galileo outside UNKNOWN exactly when any of status bits 31..63 is set |
| Measurements.AsWrittenPageSyncFromUpperBits | loc_api/loc_api_v02/LocApiV02.cpp:3733-3738 | a Galileo entry with a valid MS status and only bit 40 set besides gets E1B page sync as written, and does not with the intended test |
| Measurements.StateMaskNested | loc_api/loc_api_v02/LocApiV02.cpp:3741-3787 | TOW implies sub-frame sync, which implies bit sync, which implies code lock; the GLONASS and BeiDou extras only come with TOW; the Galileo second code lock only comes with the first |
| Measurements.MeasurementSvIdRanges | loc_api/loc_api_v02/LocApiV02.cpp:3647-3698 | in-range Galileo, BeiDou and GLONASS ids come out 1-based; a GLONASS entry with unknown slot 255 and channel 1..14 gets id 93..106; GPS and QZSS ids are kept |
| Measurements.GloCarrierChannels | loc_api/loc_api_v02/LocApiV02.cpp:3662-3681 | each GLONASS channel step adds 562.5 kHz, and channel 8 is the 1602 MHz centre |
| Confidence.ScaleFactor | loc_api/loc_api_v02/LocApiV02.cpp:94-106 | the factor is at least 1, and exactly 1 above 63% |
| Confidence.ScaleAccuracyTo68PercentConfidence | loc_api/loc_api_v02/LocApiV02.cpp:3399-3421 | the table walk yields the accuracy scaled by the 0-39, 40-50 or 51-63 bucket of the effective confidence (63 when circular); 68% or more is left alone; at most one multiplication |
| Confidence.ScaleFactorMonotone | loc_api/loc_api_v02/LocApiV02.cpp:94-106 | a lower confidence is scaled at least as much |
| Confidence.CircularAndUncoveredConfidences | loc_api/loc_api_v02/LocApiV02.cpp:3404-3420 | a circular uncertainty below 68% is always scaled by 1.072, and a declared 64-67% falls past the last bucket and is left unscaled |
| Transport.SyncSendStep | loc_api/loc_api_v02/LocApiV02.cpp:4765-4800 | a busy answer, from the library status or the indication's status, queues exactly one replay of the request with its timeout; nothing else queues; ENGINE_STATE is registered exactly when the queue was empty and the bit absent |
| Transport.SendAllSnoc | loc_api/loc_api_v02/LocApiV02.cpp:4765-4800 | one more synchronous request extends a run by one step |
| Transport.BusyQueue | loc_api/loc_api_v02/LocApiV02.cpp:4770-4797 | a run queues no more replays than it has requests |
| Transport.SentRequestsAppend | loc_api/loc_api_v02/LocApiV02.cpp:4765-4800 | the requests and registrations of two stretches of calls add up |
| Transport.SendAllQueue | loc_api/loc_api_v02/LocApiV02.cpp:4770-4797 | every busy answer of a run queues its request, in answer order, behind what was queued before |
| Transport.StepCalls | loc_api/loc_api_v02/LocApiV02.cpp:4765-4800 | one step sends its request once and registers at most once |
| Transport.SendAllSendsEach | loc_api/loc_api_v02/LocApiV02.cpp:4765-4800 | a run sends each of its requests once, in order, whatever the answers |
| Transport.SendAllRegistersOnce | loc_api/loc_api_v02/LocApiV02.cpp:4775-4777 | ENGINE_STATE is registered at most once per run: exactly when the queue started empty, the bit was absent, and some answer was busy |
| Transport.Replays | loc_api/loc_api_v02/LocApiV02.cpp:3129-3132 | replay i resends queued request i with its timeout and a null indication |
| Transport.ReplaysSendQueueInOrder | loc_api/loc_api_v02/LocApiV02.cpp:3129-3133 | a replay registers nothing and resends the queue's requests in queue order |
| Adapter.FixSessionStatus | loc_api/loc_api_v02/LocApiV02.cpp:3155-3174 | started begins the session, finished ends it, and every other state is reported as NONE |
| Adapter.BurstEntries | loc_api/loc_api_v02/LocApiV02.cpp:3549-3572 | a report with a valid list adds one converted measurement per entry, in order; an invalid list adds none |
| Adapter.CertMessages | loc_api/loc_api_v02/LocApiV02.cpp:4556-4668 | each certificate request goes out as one SUPL certificate message, in order |
| Adapter.CertMessagesAppend | loc_api/loc_api_v02/LocApiV02.cpp:4556-4668 | the messages of two runs of certificate requests add up |
| Adapter.XtraMessages | loc_api/loc_api_v02/LocApiV02.cpp:1389-1431 | k parts send k injection requests |
| Adapter.XtraMessagesAt | loc_api/loc_api_v02/LocApiV02.cpp:1389-1431 | request i injects the part that follows the first i answers |
| Adapter.XtraReplies | loc_api/loc_api_v02/LocApiV02.cpp:1410-1414 | part i is answered by reply i |
| Adapter.XtraStep | loc_api/loc_api_v02/LocApiV02.cpp:1389-1431 | one more part adds one request and one reply, and moves the offset only when the part is accepted |
| Adapter.Sends | loc_api/loc_api_v02/LocApiV02.cpp:269-457 | a sequence of optional requests sends one request and gets one reply per request actually sent |
| Adapter.Sent1 | loc_api/loc_api_v02/LocApiV02.cpp:269-457 | an optional request sends one request exactly when it is sent |
| Adapter.SendsCons | loc_api/loc_api_v02/LocApiV02.cpp:269-457 | the first optional request goes out before the rest |
| Adapter.SendsOne | loc_api/loc_api_v02/LocApiV02.cpp:269-457 | a run of one optional request sends just that request |
| Adapter.SendsOfTwo | loc_api/loc_api_v02/LocApiV02.cpp:869-1148 | two optional requests go out in order |
| Adapter.SendsOfFour | loc_api/loc_api_v02/LocApiV02.cpp:269-457 | four optional requests go out in order |
| Adapter.OpenExchange | loc_api/loc_api_v02/LocApiV02.cpp:269-457 | open sends at most four synchronous requests, each with its reply |
| Adapter.OpenExchangeParts | loc_api/loc_api_v02/LocApiV02.cpp:269-457 | open's requests are, in order: the AON query on a fresh handle with batching, the feature query on a fresh handle, the constellation report when support is known, and the support probe after a successful open while support is unknown |
| Adapter.OpenExchangeRequests | loc_api/loc_api_v02/LocApiV02.cpp:269-457 | each of open's four requests is sent exactly under its condition |
| Adapter.DeleteExchange | loc_api/loc_api_v02/LocApiV02.cpp:869-1148 | deleteAidingData sends at most two synchronous requests |
| Adapter.DeleteExchangeParts | loc_api/loc_api_v02/LocApiV02.cpp:869-1148 | the new message comes first when it is sent, then the legacy one when it is sent |
| Adapter.DeleteExchangeRequests | loc_api/loc_api_v02/LocApiV02.cpp:883-1021 | the new message is sent exactly while the latch is set; the legacy one exactly when the latch was clear or the new one came back UNSUPPORTED or INTERNAL; when both go out, the new one goes first |
| Adapter.MaskDiffDisjoint | loc_api/loc_api_v02/LocApiV02.cpp:272 | the capped mask holds no excluded bit |
| Adapter.HandleCallsShape | loc_api/loc_api_v02/LocApiV02.cpp:278-445 | a fresh handle starts with locClientOpen of the effective mask and checks message support exactly when the handle is good; an open handle makes a call exactly when the mask changed and its effective mask differs from the registered one; only an open handle registers |
| Adapter.SupportOf | loc_api/loc_api_v02/LocApiV02.cpp:4740-4756 | support is "yes" exactly when the library succeeded and the indication is success or engine-busy, otherwise "no"; never unknown |
| Adapter.ConfigResult | loc_api/loc_api_v02/LocApiV02.cpp:4440-4466 | the configuration setters succeed exactly when both the library and the indication succeed, and otherwise fail with GENERAL_FAILURE |
| Adapter.LocApi.constructor | loc_api/loc_api_v02/LocApiV02.cpp:223-239 | a new adapter has no handle, empty masks, no session, engine off, support unknown, an empty queue, the deletion latch set, zero counters, no burst and a zero clock |
| Adapter.LocApi.LocSyncSendReq | loc_api/loc_api_v02/LocApiV02.cpp:4765-4800 | returns the library status, and logs the calls and updates the queue exactly as `Transport.SyncSendStep` prescribes, leaving `mQmiMask` unchanged |
| Adapter.LocApi.SyncSendNext | loc_api/loc_api_v02/LocApiV02.cpp:4765-4800 | a synchronous request appended to a run leaves the log and the queue as a run one request longer |
| Adapter.LocApi.RegisterEventMask | loc_api/loc_api_v02/LocApiV02.cpp:458-467 | `mMask` always becomes the argument; the transport is called only when the effective mask differs from `mQmiMask`, and `mQmiMask` changes only when that registration succeeds |
| Adapter.LocApi.OpenHandle | loc_api/loc_api_v02/LocApiV02.cpp:272-445 | a fresh handle registers the capped mask through locClientOpen and drops both masks with FAILURE when that fails; an open handle re-registers only a changed mask; no excluded bit is ever registered |
| Adapter.LocApi.Open | loc_api/loc_api_v02/LocApiV02.cpp:269-457 | the handle stage as above, then exactly open's requests in order; the support cache is probed only after a success while unknown |
| Adapter.LocApi.OpenQueries | loc_api/loc_api_v02/LocApiV02.cpp:340-456 | the queries after the handle stage leave the log and the queue as a run of exactly open's requests, and set the support cache as the probe answers |
| Adapter.LocApi.QueryCapabilities | loc_api/loc_api_v02/LocApiV02.cpp:340-421 | on a fresh handle, the AON query goes out only with batching support, then the feature query |
| Adapter.LocApi.ConfigureMeasurementReports | loc_api/loc_api_v02/LocApiV02.cpp:446-456 | the constellation report is configured only when support is "yes", and the probe runs only after success while support is unknown |
| Adapter.LocApi.SetSvMeasurementConstellation | loc_api/loc_api_v02/LocApiV02.cpp:4671-4709 | measurement and polynomial reports are both set to the given constellations; success exactly when library and indication succeed |
| Adapter.LocApi.CacheGnssMeasurementSupport | loc_api/loc_api_v02/LocApiV02.cpp:4716-4763 | while unknown, one probe request is sent and its answer decides the cache; once known, nothing is sent and nothing changes |
| Adapter.LocApi.GnssConstellationConfig | loc_api/loc_api_v02/LocApiV02.cpp:4711-4714 | the query is true exactly when the cached support is yes; after a probe from unknown that is exactly when the send succeeded and the indication was success or engine-busy (CacheGnssMeasurementSupport), and it is false after SERVICE_UNAVAILABLE (ErrorCb) |
| Adapter.LocApi.ErrorCb | loc_api/loc_api_v02/LocApiV02.cpp:4067-4085 | SERVICE_UNAVAILABLE resets the support cache to unknown; any other error changes nothing |
| Adapter.LocApi.Close | loc_api/loc_api_v02/LocApiV02.cpp:486-503 | locClientClose is called only for an open handle; success unless that call fails; either way both masks are cleared, the session ends and the handle is gone |
| Adapter.LocApi.StartFix | loc_api/loc_api_v02/LocApiV02.cpp:504-645 | enters the session and marks measurements started, re-registers the unchanged `mMask` with the tracking bits, sets the operation mode synchronously, and sends START only when the mode was accepted or timed out with a successful indication; returns the converted status of the last request sent |
| Adapter.LocApi.SendModeAndStart | loc_api/loc_api_v02/LocApiV02.cpp:527-644 | the mode request is one synchronous step; START follows asynchronously exactly when the mode was accepted; the result is `convertErr` of START's status, or of the mode status |
| Adapter.LocApi.StopFix | loc_api/loc_api_v02/LocApiV02.cpp:648-680 | STOP is sent asynchronously with the default session id, the session ends, and the mask is re-registered only when the engine is off |
| Adapter.LocApi.SetPositionMode | loc_api/loc_api_v02/LocApiV02.cpp:683-696 | a running session is restarted exactly as startFix does; with no session nothing changes and the result is success |
| Adapter.LocApi.Proc | loc_api/loc_api_v02/LocApiV02.cpp:3111-3134 | engine ON reports ENGINE_ON and SESSION_BEGIN only in a session and changes nothing else; engine OFF reports SESSION_END then ENGINE_OFF, re-registers the mask (first dropping the tracking bits when the engine was on outside a session), replays every queued request in order and empties the queue |
| Adapter.LocApi.ProcOff | loc_api/loc_api_v02/LocApiV02.cpp:3113-3134 | the engine-off branch: the two registrations, the two status reports, the replay in queue order and the empty queue |
| Adapter.LocApi.OffRegistrations | loc_api/loc_api_v02/LocApiV02.cpp:3113-3128 | the first registration only when the engine was on outside a session, then the unconditional one, each calling the transport only for a changed mask |
| Adapter.LocApi.ReplayResenders | loc_api/loc_api_v02/LocApiV02.cpp:3129-3133 | every queued request is sent again in queue order with a null indication, and the queue ends empty |
| Adapter.LocApi.ReportEngineState | loc_api/loc_api_v02/LocApiV02.cpp:3138-3150 | ON and OFF reach proc and set `mEngineOn`; OFF empties the queue; any other state reports NONE and changes nothing else |
| Adapter.LocApi.ReportFixSessionState | loc_api/loc_api_v02/LocApiV02.cpp:3155-3174 | reports exactly the mapped session status |
| Adapter.LocApi.DeleteAidingData | loc_api/loc_api_v02/LocApiV02.cpp:869-1148 | the latch clears exactly when it was clear or the new message came back UNSUPPORTED or INTERNAL, and never sets again; exactly the deletion requests go out; the error is GENERAL_FAILURE exactly when the legacy message was sent and failed |
| Adapter.LocApi.SetXtraData | loc_api/loc_api_v02/LocApiV02.cpp:1364-1434 | for every part count the request's uint16_t field holds, parts 1..`total_parts` are all sent, each cut from the offset the accepted parts have reached, and the loop ends (the corrected counter); the result is that of the last part |
| Adapter.LocApi.InjectXtraPart | loc_api/loc_api_v02/LocApiV02.cpp:1391-1430 | one part is cut at the injected offset and sent; the offset advances by the part's length only when both statuses succeed and the part number is echoed |
| Adapter.LocApi.InstallAGpsCert | loc_api/loc_api_v02/LocApiV02.cpp:4556-4669 | the ten slots are walked with the mask shifted once per slot, and exactly the walk's requests go out in slot order |
| Adapter.LocApi.InstallNextSlot | loc_api/loc_api_v02/LocApiV02.cpp:4564-4668 | one pass of the slot loop extends the certificate index and the requests exactly as one more slot of the walk |
| Adapter.LocApi.InstallSlot | loc_api/loc_api_v02/LocApiV02.cpp:4566-4668 | one slot sends exactly its outcome's requests and advances the certificate index only on installation |
| Adapter.LocApi.SendPair | loc_api/loc_api_v02/LocApiV02.cpp:4600-4663 | the fake injection and the delete go out as two synchronous requests, in that order |
| Adapter.LocApi.SetGpsLock | loc_api/loc_api_v02/LocApiV02.cpp:4440-4466 | sends the converted lock; success exactly when library and indication succeed |
| Adapter.LocApi.GetGpsLock | loc_api/loc_api_v02/LocApiV02.cpp:4472-4506 | returns the indicated lock type when the request succeeded and one is present, otherwise -1 |
| Adapter.LocApi.SetXtraVersionCheck | loc_api/loc_api_v02/LocApiV02.cpp:4510-4553 | sends the mapped check mode; success exactly when library and indication succeed |
| Adapter.LocApi.SetSuplVersion | loc_api/loc_api_v02/LocApiV02.cpp:1620-1668 | sends the mapped SUPL version; success exactly when library and indication succeed |
| Adapter.LocApi.SetLppConfig | loc_api/loc_api_v02/LocApiV02.cpp:1707-1756 | sends the mapped LPP planes; success exactly when library and indication succeed |
| Adapter.LocApi.AtlOpenStatus | loc_api/loc_api_v02/LocApiV02.cpp:1483-1568 | an unknown bearer on success returns INVALID_HANDLE with nothing sent; otherwise the connection status, APN name included, goes out and the result is `convertErr` of the library status |
| Adapter.LocApi.ConvertGnssClock | loc_api/loc_api_v02/LocApiV02.cpp:3862-3903 | with extended time and reset count both valid, the discontinuity counter is bumped (wrapping) exactly when measurements just started, the reset count changed or the reference count did not advance; the start flag is cleared; both counts are remembered; the clock takes the discontinuity count and timeNs = refFCount * 10^6; msInWeek is the cast system milliseconds; otherwise -1, the clock keeps its count and timeNs, and nothing changes |
| Adapter.LocApi.ReportGnssMeasurementData | loc_api/loc_api_v02/LocApiV02.cpp:3517-3589 | a sequence number past the maximum is ignored; sequence 1 restarts the burst; each report appends its converted entries; sequence 1 also zeroes the clock, and the GPS report writes the discontinuity count and timeNs into it; a GPS report moves the discontinuity counters as `Adapter.LocApi.ClockCounted` states: with extended time and reset count valid, the count is bumped (wrapping) exactly when measurements just started, the reset count changed or the reference count did not advance, the start flag is cleared and both counts are remembered; otherwise the counters are unchanged; the burst is delivered exactly at the last report when it holds measurements and GPS was seen, with that clock and msInWeek |

## Left out

- The QMI-LOC client library and the transport: blocking, timeouts and message encoding. Every answer is a parameter, and the ghost log `wire` records the calls.
- Concurrency. `sendMsg` and the callback trampolines at 119-198 are not modelled; `proc` runs synchronously inside `reportEngineState`.
- The data-service client (`initDataServiceClient`, `openAndStartDataCall`, `stopDataCall`, `closeDataCall`, `releaseDataServiceClient`). These are calls into a dynamically loaded library.
- Wall-clock reads, the configuration file read, and all logging. The clock of `injectPosition` is a parameter.
- Floating point:
  - the float fields of measurements, clocks and SV records are not modelled;
  - the confidence scalers, the injected coordinates and the uncertainties are `real`, so float rounding is not modelled;
  - the carrier table is integer Hz, because its literals are whole numbers.
- The NI string helpers and the raw copy of the NI payload, reportPosition, reportNmea, reportAtlRequest, reportNiRequest, requestXtraServer, atlCloseStatus, setNMEATypes, and the sensor and A-GLONASS/LPPe setters. These are outside the modelled core.
- The AON capability logging in `open`. Its bit tests are always true, and the supported-message and supported-feature lists are saved by base-class code that is not part of this model. Batching support is a boolean parameter.
- `injectPosition`, `informNiResponse` and `setServer` are modelled through the requests they build and their early refusals (`Mappers`). Sending those requests is not modelled; it is the same synchronous pattern as the configuration setters.
- Adapter.LocApi.LocSyncSendReq: a failed `malloc` of the payload copy, which queues no replay, is not modelled. The busy test on the indication reads its first word as a client status; the model reads it as the indication status ENGINE_BUSY.
- Adapter.LocApi.SetXtraData: requires at most 0xFFFF parts, the largest count the uint16_t totalParts field of the request holds, so the blob is under about 64 MiB. A larger blob wraps the part count. The model's counter does not wrap, so exactly 0xFFFF parts finish; the code as written never leaves the loop then (see Findings). The model takes the blob as a sequence, so it excludes the negative `length` that the code's `int` parameter accepts. For such a length the code divides toward zero. A `length` of -5 gives `total_parts` 1, and then the unsigned `length - len_injected` at line 1395 makes `partData_len` 1024, a read of 1024 bytes past a buffer the caller sized as negative. A `length` of -2000 gives `total_parts` 0, so nothing is sent and the call returns success. A `length` of -2049 gives -1, which the uint16_t field holds as 0xFFFF parts.
- Adapter.LocApi.InstallAGpsCert: the certificate bytes are copied into the request's fixed `suplCertData` buffer with the certificate's own length and no check, so a certificate longer than that buffer writes past it. The buffer size is a QMI header constant that is not part of this model, and the model's request takes data of any length.
- SvReport.ReportSvMeasurementAsWritten: the list-length clamp is overwritten on the next line, so a list longer than the destination array writes past it. The model's slots are unbounded and do not capture that overflow.
- Header constants that are not part of this file are given their usual values:
  - `QMI_LOC_MAX_PREDICTED_ORBITS_PART_LEN_V02` = 1024;
  - the URL buffer is 256 bytes;
  - `GLO_SV_PRN_MIN` = 65, `BDS_SV_PRN_MIN` = 201, `GAL_SV_PRN_MIN` = 301;
  - `GNSS_SV_MAX` = 64;
  - `LOC_AGPS_CERTIFICATE_MAX_SLOTS` = 10;
  - `QMI_LOC_MAX_APN_NAME_LENGTH_V02` = 100, so the APN buffer is 101 bytes;
  - the low-accuracy limits are one minute and ten minutes.
- Bit-mask values from headers that are not part of this file are enumeration constructors, so mask translations are stated bit by bit, not as integers. The exception is `Mappers.ConvertNavSolutionMask`, which is stated on bit numbers because it tests a position-technology constant against the navigation mask: the SBAS ionosphere, fast, long-term and integrity bits are bits 0-3 in both the QMI-LOC and the consumer navigation masks, and `QMI_LOC_POS_TECH_MASK_WIFI_V02` and `LOC_POS_TECH_MASK_WIFI` are both bit 2. `Mappers.NavWifiTestRedundant` holds under these values.
- Adapter.LocApi.ReportGnssMeasurementData: a burst longer than the notification's measurement array is not bounded. Of the clock, only the discontinuity count and timeNs are modelled; its flags and bias and drift fields are floating point or depend on a floating-point test.
- Measurements.ConvertGnssMeasurement: uses the intended bit-31 page-sync test. The code as written also sets page sync for any of status bits 32..63; `Measurements.ConvertGnssMeasurementAsWritten` models that, and the burst uses the intended conversion (see Findings).
- Deletion.NewApiRequest: carries the corrected system bits, each constellation as itself. The code as written sends the swapped bits of `Deletion.SystemsAsWritten` (see Findings).
- Adapter.LocApi.DeleteAidingData: sends `Deletion.NewApiRequest`, so its request carries the corrected system bits, not the swapped ones the code sends.
- Strings are sequences of characters without a terminating NUL. A source string with an embedded NUL, which `strlcpy` would stop at, is not modelled.

## Findings

| source | as written | input that shows it | evidently intended | confidence | as-written member | corrected member |
|---|---|---|---|---|---|---|
| loc_api/loc_api_v02/LocApiV02.cpp:949-956 | the new deletion message sets the BDS system bit for QZSS, Galileo for BeiDou and QZSS for Galileo | `deleteAidingData` with `svTypeMask` = BEIDOU only deletes Galileo data | each constellation bit selects its own system | high, not executed | Deletion.AsWrittenMisnamesSystems | Deletion.SystemsExact |
| loc_api/loc_api_v02/LocApiV02.cpp:2839-2942 | filled entries are written at their input index, but `numSvs` is set to the number of filled entries | a list of two, where the first has `gnssSvId` 0 and the second is valid, gives `numSvs` 1 with slot 0 empty and the measurement in slot 1 | the first `numSvs` slots hold the filled entries | medium, not executed | SvReport.AsWrittenHidesMeasurement | SvReport.FilledComplete |
| loc_api/loc_api_v02/LocApiV02.cpp:3733 | the Galileo page-sync test `measurementStatus & (1 << 31)` uses the int constant `1 << 31`, which is INT_MIN and sign-extends to 0xFFFFFFFF80000000 against the uint64_t status word | a Galileo measurement with a valid MS status and status bit 40 set but bit 31 clear reports E1B page sync | page sync only on bit 31 (`1ULL << 31`) | high, not executed | Measurements.AsWrittenPageSyncFromUpperBits | Measurements.ConvertGnssMeasurement |
| loc_api/loc_api_v02/LocApiV02.cpp:1368-1391 | `part` is uint16_t and the loop test is `part <= total_parts` | a blob of 0xFFFF * 1024 bytes gives `total_parts` 0xFFFF; after part 0xFFFF the counter wraps to 0 and the loop never ends | the loop ends after part `total_parts` for every count the field holds | high, not executed | Xtra.AsWrittenLoopNeverEnds | Adapter.LocApi.SetXtraData |
