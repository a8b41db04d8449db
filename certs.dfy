// installAGpsCert: the SUPL certificate slots named by a bit mask are
// written in order from a certificate list; a writable slot with no usable
// certificate left is cleared.

module Certs {
  import opened Status

  /** LOC_AGPS_CERTIFICATE_MAX_SLOTS. */
  const MAX_SLOTS: nat := 10

  /** A DER-encoded certificate: None stands for a null data pointer; the
      length is that of the bytes. */
  datatype Cert = Cert(data: Option<seq<bv8>>)

  /** The certificate can be injected: non-null data of positive length. */
  predicate Usable(c: Cert) {
    c.data.Some? && |c.data.value| > 0
  }

  /** The one-byte certificate injected before a slot is deleted, because
      deleting an empty slot fails. */
  const FAKE_CERT: seq<bv8> := [1]

  /** The two SUPL certificate requests. */
  datatype CertRequest =
    | InjectSuplCertificate(slot: nat, certData: seq<bv8>)
    | DeleteSuplCertificate(slot: nat)

  /** The mask as seen at slot k, after k right shifts. */
  function Shifted(mask: nat, k: nat): nat {
    if k == 0 then mask else Shifted(mask, k - 1) / 2
  }

  /** The writable flags of slots 0..n-1: slot s is writable when the low
      bit of the mask, shifted right s times, is set. */
  function SlotBits(mask: nat, n: nat): (bits: seq<bool>)
    ensures |bits| == n
    ensures forall s :: 0 <= s < n ==> (bits[s] <==> Shifted(mask, s) % 2 == 1)
  {
    seq(n, s requires 0 <= s => Shifted(mask, s) % 2 == 1)
  }

  predicate Writable(bits: seq<bool>, slot: nat) {
    slot < |bits| && bits[slot]
  }

  /** What the walk did with one slot. */
  datatype SlotOutcome = NotWritable | Installed(certIndex: nat) | Cleared

  /** The walk over the first n slots: one outcome per slot and the index of
      the next certificate to use. */
  datatype Walk = Walk(outcomes: seq<SlotOutcome>, certIndex: nat)

  /** A slot's outcome from its writable flag and the next certificate. */
  function Outcome(writable: bool, certs: seq<Cert>, certIndex: nat): (o: SlotOutcome)
    ensures o.Installed? ==> o.certIndex == certIndex < |certs| && Usable(certs[certIndex])
  {
    if !writable then NotWritable
    else if certIndex < |certs| && Usable(certs[certIndex]) then Installed(certIndex)
    else Cleared
  }

  function Step(bits: seq<bool>, certs: seq<Cert>, slot: nat, certIndex: nat): (o: SlotOutcome) {
    Outcome(Writable(bits, slot), certs, certIndex)
  }

  /** The number of Installed outcomes. */
  function CountInstalled(os: seq<SlotOutcome>): (n: nat)
    ensures n <= |os|
  {
    if os == [] then 0 else CountInstalled(os[..|os| - 1]) + (if os[|os| - 1].Installed? then 1 else 0)
  }

  /** The slot walk: the outcomes of the first n slots, one slot at a time. */
  function SlotWalk(bits: seq<bool>, certs: seq<Cert>, n: nat): (w: Walk)
    ensures |w.outcomes| == n
    ensures w.certIndex <= |certs|
    ensures n > 0 && w.outcomes[n - 1].Installed? ==>
      w.outcomes[n - 1].certIndex < |certs| && Usable(certs[w.outcomes[n - 1].certIndex])
  {
    if n == 0 then Walk([], 0)
    else
      var prev := SlotWalk(bits, certs, n - 1);
      var o := Step(bits, certs, n - 1, prev.certIndex);
      Walk(prev.outcomes + [o], prev.certIndex + (if o.Installed? then 1 else 0))
  }

  /** The certificate index advances exactly on an installation. */
  lemma {:induction false} SlotWalkCount(bits: seq<bool>, certs: seq<Cert>, n: nat)
    ensures SlotWalk(bits, certs, n).certIndex == CountInstalled(SlotWalk(bits, certs, n).outcomes)
  {
    if n > 0 {
      SlotWalkCount(bits, certs, n - 1);
      var prev := SlotWalk(bits, certs, n - 1);
      CountInstalledSnoc(prev.outcomes, Step(bits, certs, n - 1, prev.certIndex));
    }
  }

  lemma CountInstalledSnoc(os: seq<SlotOutcome>, o: SlotOutcome)
    ensures CountInstalled(os + [o]) == CountInstalled(os) + (if o.Installed? then 1 else 0)
  {
    assert (os + [o])[..|os|] == os;
  }

  /** Slot s of any longer walk is decided by the certificate index the walk
      had reached at s. */
  lemma SlotOutcomeAt(bits: seq<bool>, certs: seq<Cert>, n: nat, s: nat)
    requires s < n
    ensures SlotWalk(bits, certs, n).outcomes[s] == Step(bits, certs, s, SlotWalk(bits, certs, s).certIndex)
  {
    SlotWalkPrefix(bits, certs, s + 1, n);
    assert SlotWalk(bits, certs, n).outcomes[s] == SlotWalk(bits, certs, n).outcomes[..s + 1][s];
  }

  /** Certificates are installed in list order with none skipped, and only
      writable slots are touched. */
  lemma SlotWalkMeaning(bits: seq<bool>, certs: seq<Cert>, n: nat)
    ensures var w := SlotWalk(bits, certs, n);
      forall s :: 0 <= s < n ==> (w.outcomes[s].NotWritable? <==> !Writable(bits, s))
    ensures var w := SlotWalk(bits, certs, n);
      forall s :: 0 <= s < n && w.outcomes[s].Installed? ==>
        w.outcomes[s].certIndex == CountInstalled(w.outcomes[..s]) &&
        w.outcomes[s].certIndex < |certs| && Usable(certs[w.outcomes[s].certIndex])
  {
    var w := SlotWalk(bits, certs, n);
    forall s | 0 <= s < n
      ensures w.outcomes[s].NotWritable? <==> !Writable(bits, s)
      ensures w.outcomes[s].Installed? ==>
        w.outcomes[s].certIndex == CountInstalled(w.outcomes[..s]) &&
        w.outcomes[s].certIndex < |certs| && Usable(certs[w.outcomes[s].certIndex])
    {
      SlotOutcomeAt(bits, certs, n, s);
      SlotWalkPrefix(bits, certs, s, n);
      SlotWalkCount(bits, certs, s);
    }
  }

  /** The requests one slot outcome turns into. */
  function SlotRequests(certs: seq<Cert>, slot: nat, o: SlotOutcome): (r: seq<CertRequest>)
    requires o.Installed? ==> o.certIndex < |certs| && Usable(certs[o.certIndex])
    ensures o.NotWritable? <==> r == []
    ensures o.Installed? ==> r == [InjectSuplCertificate(slot, certs[o.certIndex].data.value)]
    ensures o.Cleared? ==> r == [InjectSuplCertificate(slot, FAKE_CERT), DeleteSuplCertificate(slot)]
  {
    match o
    case NotWritable => []
    case Installed(k) => [InjectSuplCertificate(slot, certs[k].data.value)]
    case Cleared => [InjectSuplCertificate(slot, FAKE_CERT), DeleteSuplCertificate(slot)]
  }

  /** The requests of the first n slots, in slot order. */
  function WalkRequests(bits: seq<bool>, certs: seq<Cert>, n: nat): seq<CertRequest> {
    if n == 0 then []
    else
      var w := SlotWalk(bits, certs, n);
      WalkRequests(bits, certs, n - 1) + SlotRequests(certs, n - 1, w.outcomes[n - 1])
  }

  /** The requests of n + 1 slots are those of n slots and then slot n's. */
  lemma WalkRequestsStep(bits: seq<bool>, certs: seq<Cert>, n: nat)
    ensures var o := Step(bits, certs, n, SlotWalk(bits, certs, n).certIndex);
      (o.Installed? ==> o.certIndex < |certs| && Usable(certs[o.certIndex])) &&
      WalkRequests(bits, certs, n + 1) == WalkRequests(bits, certs, n) + SlotRequests(certs, n, o)
  {
  }

  /** The requests of the first m slots open the requests of any longer walk. */
  lemma {:induction false} WalkRequestsPrefix(bits: seq<bool>, certs: seq<Cert>, m: nat, n: nat)
    requires m <= n
    ensures |WalkRequests(bits, certs, m)| <= |WalkRequests(bits, certs, n)|
    ensures WalkRequests(bits, certs, n)[..|WalkRequests(bits, certs, m)|] == WalkRequests(bits, certs, m)
  {
    if m < n {
      WalkRequestsPrefix(bits, certs, m, n - 1);
      var b := WalkRequests(bits, certs, n - 1);
      var t := SlotRequests(certs, n - 1, SlotWalk(bits, certs, n).outcomes[n - 1]);
      assert WalkRequests(bits, certs, n) == b + t;
      TakeOfAppend(b, t, |WalkRequests(bits, certs, m)|);
    }
  }

  /** Taking no more than the first part of a concatenation takes from that part. */
  lemma TakeOfAppend<T>(b: seq<T>, t: seq<T>, k: nat)
    requires k <= |b|
    ensures (b + t)[..k] == b[..k]
  {
    assert forall i :: 0 <= i < k ==> (b + t)[..k][i] == b[..k][i];
  }

  /** Later slots leave the outcomes of earlier slots as they were. */
  lemma {:induction false} SlotWalkPrefix(bits: seq<bool>, certs: seq<Cert>, m: nat, n: nat)
    requires m <= n
    ensures SlotWalk(bits, certs, n).outcomes[..m] == SlotWalk(bits, certs, m).outcomes
  {
    if m < n {
      SlotWalkPrefix(bits, certs, m, n - 1);
      assert SlotWalk(bits, certs, n).outcomes[..n - 1] == SlotWalk(bits, certs, n - 1).outcomes;
      assert SlotWalk(bits, certs, n).outcomes[..m] == SlotWalk(bits, certs, n).outcomes[..n - 1][..m];
    }
  }

  /** Once a writable slot is cleared, every later writable slot is cleared
      too: an unusable certificate is never skipped over, so it blocks the
      rest of the list. */
  lemma ClearedBlocksLaterSlots(bits: seq<bool>, certs: seq<Cert>, n: nat, s: nat, t: nat)
    requires s < t < n
    requires SlotWalk(bits, certs, n).outcomes[s].Cleared? && Writable(bits, t)
    ensures SlotWalk(bits, certs, n).outcomes[t].Cleared?
  {
    var k := SlotWalk(bits, certs, s).certIndex;
    SlotOutcomeAt(bits, certs, n, s);
    IndexStaysBlocked(bits, certs, s + 1, t, k);
    SlotOutcomeAt(bits, certs, n, t);
  }

  /** Helper: once the walk reaches a certificate index k that cannot be
      used, the index stays at k. */
  lemma {:induction false} IndexStaysBlocked(bits: seq<bool>, certs: seq<Cert>, u: nat, t: nat, k: nat)
    requires 0 < u <= t
    requires SlotWalk(bits, certs, u).certIndex == k && !(k < |certs| && Usable(certs[k]))
    ensures SlotWalk(bits, certs, t).certIndex == k
    decreases t - u
  {
    if u < t {
      assert SlotWalk(bits, certs, u + 1).certIndex == k;
      IndexStaysBlocked(bits, certs, u + 1, t, k);
    }
  }

  /** With every slot writable and enough usable certificates, slot i holds
      certificate i. */
  lemma {:induction false} AllWritableInstallsInOrder(bits: seq<bool>, certs: seq<Cert>, n: nat)
    requires forall s :: 0 <= s < n ==> Writable(bits, s)
    requires n <= |certs| && forall k :: 0 <= k < n ==> Usable(certs[k])
    ensures forall s :: 0 <= s < n ==> SlotWalk(bits, certs, n).outcomes[s] == Installed(s)
  {
    if n > 0 {
      AllWritableInstallsInOrder(bits, certs, n - 1);
      var prev := SlotWalk(bits, certs, n - 1);
      InstalledCountAll(prev.outcomes);
      assert Writable(bits, n - 1) && Usable(certs[n - 1]);
      assert Step(bits, certs, n - 1, prev.certIndex) == Installed(n - 1);
      var os := SlotWalk(bits, certs, n).outcomes;
      assert os == prev.outcomes + [Installed(n - 1)];
      forall s | 0 <= s < n ensures os[s] == Installed(s) {
        if s < n - 1 {
          assert os[s] == prev.outcomes[s];
        }
      }
    }
  }

  /** Helper: a walk where every slot i is Installed(i) counts |os| installations. */
  lemma {:induction false} InstalledCountAll(os: seq<SlotOutcome>)
    requires forall s :: 0 <= s < |os| ==> os[s] == Installed(s)
    ensures CountInstalled(os) == |os|
  {
    if os != [] {
      var init := os[..|os| - 1];
      assert forall s :: 0 <= s < |init| ==> init[s] == os[s];
      InstalledCountAll(init);
    }
  }
}
