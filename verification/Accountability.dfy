/**
 Holding mirrors and insurers to what they sign (src/protocol/registry.ts, "accountability" and
 "the origin's word").

 A cancellation somebody's signed word shows is evidence against anybody who claims to have looked
 later and does not show it. Days are compared, not instants.
 */
module Accountability {
  import opened Wrappers
  import opened Registry

  datatype Evidence = Evidence(source: string, policyNumber: string, cancellationDate: int, filedDate: int, receivedDate: int, asOf: int)

  datatype FalseAttestationProof = FalseAttestationProof(registryId: string, usdot: string, claimedSyncAt: int, attestation: Attestation, missing: Evidence)

  datatype InsurerFalseAttestationProof =
    InsurerFalseAttestationProof(insurerId: string, usdot: string, signedAt: int, attestation: InsurerAttestation, missing: Evidence)

  predicate ShowsCancellation(f: Filing) { f.cancellationDate.Some? && f.filedDate.Some? }

  function ReceivedDay(f: Filing): int
    requires ShowsCancellation(f)
  {
    if f.receivedDate.Some? then f.receivedDate.value else f.filedDate.value
  }

  function EvidenceOf(source: string, f: Filing, asOf: int): Evidence
    requires ShowsCancellation(f)
  {
    Evidence(source, f.policyNumber, f.cancellationDate.value, f.filedDate.value, ReceivedDay(f), asOf)
  }

  function Insurance(a: Attestation): seq<Filing> { if a.record.Some? then a.record.value.insurance else [] }

  function Shown(source: string, fs: seq<Filing>, asOf: int): seq<Evidence> {
    if fs == [] then []
    else (if ShowsCancellation(fs[0]) then [EvidenceOf(source, fs[0], asOf)] else []) + Shown(source, fs[1..], asOf)
  }

  /** One piece of evidence per cancellation the record shows. */
  function FilingsShownBy(a: Attestation): seq<Evidence> { Shown(a.registryId, Insurance(a), Sync(a)) }

  lemma {:induction false} ShownMembers(source: string, fs: seq<Filing>, asOf: int)
    ensures forall e :: e in Shown(source, fs, asOf) <==> exists f :: f in fs && ShowsCancellation(f) && e == EvidenceOf(source, f, asOf)
  {
    if fs != [] {
      ShownMembers(source, fs[1..], asOf);
      assert fs == [fs[0]] + fs[1..];
    }
  }

  predicate CancelledBy(f: Filing, day: int) { f.cancellationDate.Some? && f.cancellationDate.value <= day }

  /** The evidence shows a cancellation received on a day before the claimed sync, of a policy `x` shows without it. */
  predicate Damns(x: Attestation, e: Evidence) {
    && !(e.source == x.registryId && e.asOf == Sync(x))
    && e.receivedDate < DayOf(Sync(x))
    && var own := FindPolicy(Insurance(x), e.policyNumber);
       own.Some? && !CancelledBy(own.value, e.cancellationDate)
  }

  predicate Convicted(x: Attestation, evidence: seq<Evidence>) {
    exists i :: 0 <= i < |evidence| && Damns(x, evidence[i])
  }

  predicate FirstDamning(x: Attestation, evidence: seq<Evidence>, i: int) {
    0 <= i < |evidence| && Damns(x, evidence[i]) && forall j :: 0 <= j < i ==> !Damns(x, evidence[j])
  }

  method ContradictedBy(x: Attestation, evidence: seq<Evidence>) returns (proof: Option<FalseAttestationProof>)
    ensures proof.Some? <==> Convicted(x, evidence)
    ensures proof.Some? ==> exists i :: FirstDamning(x, evidence, i) && proof.value == FalseAttestationProof(x.registryId, x.usdot, Sync(x), x, evidence[i])
  {
    var sync := Sync(x);
    for i := 0 to |evidence|
      invariant forall j :: 0 <= j < i ==> !Damns(x, evidence[j])
    {
      var e := evidence[i];
      if e.source == x.registryId && e.asOf == sync { continue; }
      if e.receivedDate >= DayOf(sync) { continue; }
      var own := FindPolicy(Insurance(x), e.policyNumber);
      if own.None? { continue; }
      if own.value.cancellationDate.Some? && own.value.cancellationDate.value <= e.cancellationDate { continue; }
      assert FirstDamning(x, evidence, i);
      return Some(FalseAttestationProof(x.registryId, x.usdot, sync, x, e));
    }
    return None;
  }

  function InsurerSource(insurerId: string): string { "insurer:" + insurerId }

  predicate DamnsInsurer(a: InsurerAttestation, e: Evidence) {
    && e.policyNumber == a.policyNumber
    && !(e.source == InsurerSource(a.insurerId) && e.asOf == a.asOf)
    && e.filedDate < DayOf(a.asOf)
    && !(a.cancellation.Some? && a.cancellation.value.effectiveDate <= e.cancellationDate)
  }

  predicate InsurerConvicted(a: InsurerAttestation, evidence: seq<Evidence>) {
    exists i :: 0 <= i < |evidence| && DamnsInsurer(a, evidence[i])
  }

  predicate FirstDamningInsurer(a: InsurerAttestation, evidence: seq<Evidence>, i: int) {
    0 <= i < |evidence| && DamnsInsurer(a, evidence[i]) && forall j :: 0 <= j < i ==> !DamnsInsurer(a, evidence[j])
  }

  method InsurerContradictedBy(a: InsurerAttestation, evidence: seq<Evidence>) returns (proof: Option<InsurerFalseAttestationProof>)
    ensures proof.Some? <==> InsurerConvicted(a, evidence)
    ensures proof.Some? ==> exists i :: FirstDamningInsurer(a, evidence, i) && proof.value == InsurerFalseAttestationProof(a.insurerId, a.usdot, a.asOf, a, evidence[i])
  {
    for i := 0 to |evidence|
      invariant forall j :: 0 <= j < i ==> !DamnsInsurer(a, evidence[j])
    {
      var e := evidence[i];
      if e.policyNumber != a.policyNumber || (e.source == InsurerSource(a.insurerId) && e.asOf == a.asOf) { continue; }
      if e.filedDate >= DayOf(a.asOf) { continue; }
      if a.cancellation.Some? && a.cancellation.value.effectiveDate <= e.cancellationDate { continue; }
      assert FirstDamningInsurer(a, evidence, i);
      return Some(InsurerFalseAttestationProof(a.insurerId, a.usdot, a.asOf, a, e));
    }
    return None;
  }

  /** The insurer's disclosed cancellation as evidence: its filed day stands in for the day a registry received it. */
  function FilingShownByInsurer(a: InsurerAttestation): Option<Evidence> {
    if a.cancellation.None? then None
    else
      var c := a.cancellation.value;
      Some(Evidence(InsurerSource(a.insurerId), a.policyNumber, c.effectiveDate, c.filedDate, c.filedDate, a.asOf))
  }
}
