// setXtraData: a predicted-orbits (XTRA) blob is injected in numbered parts
// of at most QMI_LOC_MAX_PREDICTED_ORBITS_PART_LEN bytes; this module holds
// the specification of the parts and of the injected offset.

module Xtra {
  import opened Status

  /** QMI_LOC_MAX_PREDICTED_ORBITS_PART_LEN_V02. */
  const MAX_PART_LEN: nat := 1024

  /** The largest part count the uint16_t totalParts field of the request holds. */
  const MAX_PARTS: nat := 0xFFFF

  /** The uint16_t loop counter `part` as written, after k passes of the
      loop that starts it at 1: each part++ wraps from 0xFFFF to 0. */
  function PartCounterAsWritten(k: nat): (part: nat)
    ensures part <= MAX_PARTS
  {
    (1 + k) % (MAX_PARTS + 1)
  }

  /** As written, a blob of exactly 0xFFFF parts never leaves the loop: the
      test part <= total_parts holds after every pass, because the counter
      wraps to 0 after part 0xFFFF instead of reaching 0x10000. */
  lemma {:induction false} AsWrittenLoopNeverEnds(k: nat)
    ensures PartCounterAsWritten(k) <= TotalParts(MAX_PARTS * MAX_PART_LEN)
    ensures PartCounterAsWritten(MAX_PARTS) == 0
  {
    assert TotalParts(MAX_PARTS * MAX_PART_LEN) == MAX_PARTS by {
      assert (MAX_PARTS * MAX_PART_LEN - 1) / MAX_PART_LEN == MAX_PARTS - 1;
    }
  }

  /** What a part's synchronous request hands back: the library status, the
      indication status and the part number the indication echoes. */
  datatype XtraReply = XtraReply(reply: Reply, partNum: int)

  /** One QMI-LOC predicted-orbits injection request. */
  datatype XtraPart = XtraPart(totalSize: nat, totalParts: nat, partNum: nat, partData: seq<bv8>)

  /** ((length - 1) / MAX) + 1 with C's truncating division: an empty blob is
      still sent as one (empty) part. */
  function TotalParts(length: nat): (n: nat)
    ensures n >= 1
    ensures length == 0 ==> n == 1
    ensures length > 0 ==> (n - 1) * MAX_PART_LEN < length <= n * MAX_PART_LEN
  {
    var q := if length == 0 then 0 else (length - 1) / MAX_PART_LEN;  // (-1) / MAX is 0 in C
    q + 1
  }

  /** partData_len: what is left, capped at the part size. */
  function PartLen(length: nat, injected: nat): (n: nat)
    requires injected <= length
    ensures n <= MAX_PART_LEN && injected + n <= length
    ensures n == MAX_PART_LEN || injected + n == length
  {
    if MAX_PART_LEN > length - injected then length - injected else MAX_PART_LEN
  }

  /** A part counts as injected when both statuses are success and the
      indication echoes its part number. */
  predicate Accepted(r: XtraReply, partNum: nat) {
    r.reply.status == ClientSuccess && r.reply.ind == QmiSuccess && r.partNum == partNum
  }

  /** len_injected after the parts answered by `replies` (part k is answered
      by replies[k - 1]). */
  function Injected(data: seq<bv8>, replies: seq<XtraReply>): (off: nat)
    ensures off <= |data|
  {
    if replies == [] then 0
    else
      var prev := Injected(data, replies[..|replies| - 1]);
      if Accepted(replies[|replies| - 1], |replies|) then prev + PartLen(|data|, prev) else prev
  }

  /** Part k + 1, sent once the first k parts have been answered. */
  function PartAfter(data: seq<bv8>, answered: seq<XtraReply>): (p: XtraPart)
    ensures p.partNum == |answered| + 1 && p.totalParts == TotalParts(|data|) && p.totalSize == |data|
    ensures |p.partData| <= MAX_PART_LEN
    ensures Injected(data, answered) + |p.partData| <= |data|
    ensures p.partData == data[Injected(data, answered)..Injected(data, answered) + |p.partData|]
  {
    var off := Injected(data, answered);
    XtraPart(|data|, TotalParts(|data|), |answered| + 1, data[off..off + PartLen(|data|, off)])
  }

  /** How many of the answered parts were accepted. */
  function AcceptedCount(replies: seq<XtraReply>): (n: nat)
    ensures n <= |replies|
  {
    if replies == [] then 0
    else AcceptedCount(replies[..|replies| - 1]) + (if Accepted(replies[|replies| - 1], |replies|) then 1 else 0)
  }

  predicate AllAccepted(replies: seq<XtraReply>) {
    forall k :: 0 <= k < |replies| ==> Accepted(replies[k], k + 1)
  }

  /** Each accepted part advances the offset by at most a part. */
  lemma {:induction false} InjectedAtMostAccepted(data: seq<bv8>, replies: seq<XtraReply>)
    ensures Injected(data, replies) <= AcceptedCount(replies) * MAX_PART_LEN
  {
    if replies != [] {
      InjectedAtMostAccepted(data, replies[..|replies| - 1]);
    }
  }

  /** With every part accepted, k parts inject min(k * MAX, length) bytes. */
  lemma {:induction false} InjectedAllAccepted(data: seq<bv8>, replies: seq<XtraReply>)
    requires AllAccepted(replies)
    ensures Injected(data, replies) == if |replies| * MAX_PART_LEN < |data| then |replies| * MAX_PART_LEN else |data|
  {
    if replies != [] {
      var init := replies[..|replies| - 1];
      assert AllAccepted(init) by {
        forall k | 0 <= k < |init| ensures Accepted(init[k], k + 1) {
          assert init[k] == replies[k];
        }
      }
      InjectedAllAccepted(data, init);
      assert Accepted(replies[|replies| - 1], |replies|);
    }
  }

  /** A rejected part leaves the count of accepted parts below the number of parts. */
  lemma {:induction false} RejectionLowersCount(replies: seq<XtraReply>, k: nat)
    requires k < |replies| && !Accepted(replies[k], k + 1)
    ensures AcceptedCount(replies) < |replies|
  {
    var init := replies[..|replies| - 1];
    if k < |replies| - 1 {
      assert init[k] == replies[k];
      RejectionLowersCount(init, k);
    }
  }

  /** After all TotalParts parts the whole blob is injected exactly when every
      part was accepted; a single rejected part leaves it incomplete, since
      the loop never stops early and never retries. */
  lemma XtraCompleteIffAllAccepted(data: seq<bv8>, replies: seq<XtraReply>)
    requires |replies| == TotalParts(|data|) && |data| > 0
    ensures Injected(data, replies) == |data| <==> AllAccepted(replies)
  {
    if AllAccepted(replies) {
      InjectedAllAccepted(data, replies);
    } else {
      var k :| 0 <= k < |replies| && !Accepted(replies[k], k + 1);
      RejectionLowersCount(replies, k);
      InjectedAtMostAccepted(data, replies);
      assert AcceptedCount(replies) * MAX_PART_LEN <= (|replies| - 1) * MAX_PART_LEN;
    }
  }

  /** After a rejected part the next part number carries the same bytes again. */
  lemma RejectedPartRepeated(data: seq<bv8>, replies: seq<XtraReply>, k: nat)
    requires k + 1 <= |replies| && !Accepted(replies[k], k + 1)
    ensures PartAfter(data, replies[..k + 1]).partData == PartAfter(data, replies[..k]).partData
    ensures PartAfter(data, replies[..k + 1]).partNum == PartAfter(data, replies[..k]).partNum + 1
  {
    assert replies[..k + 1][..k] == replies[..k];
  }

  /** The empty blob is one empty part. */
  lemma EmptyBlobIsOnePart(replies: seq<XtraReply>)
    requires |replies| == 1
    ensures TotalParts(0) == 1 && PartAfter([], []).partData == [] && Injected([], replies) == 0
  {
  }
}
