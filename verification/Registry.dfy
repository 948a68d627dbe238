/**
 The public record a registry publishes and the words signed about it (src/protocol/registry.ts).

 Instants are milliseconds; a day is the number of whole days before it, as the date part of an ISO
 instant is. Dates on filings are days; a date used as an instant is its midnight.
 */
module Registry {
  import opened Wrappers

  const MS_PER_DAY := 86_400_000

  function DayOf(t: int): int { t / MS_PER_DAY }

  function Midnight(day: int): int { day * MS_PER_DAY }

  datatype FilingType = BIPD | CARGO | BOND | TRUST_FUND

  datatype Filing = Filing(
    typ: FilingType,
    policyNumber: string,
    coverageToUsd: int,
    effectiveDate: int,
    cancellationDate: Option<int>,
    filedDate: Option<int>,
    receivedDate: Option<int>)

  datatype EntityType = CARRIER | BROKER | CARRIER_BROKER

  datatype OperatingStatus = AUTHORIZED | NOT_AUTHORIZED | OUT_OF_SERVICE

  datatype Authority = Authority(ofBroker: bool, active: bool, grantDate: int, revokedDate: Option<int>)

  datatype Record = Record(
    usdot: string,
    entityType: EntityType,
    operatingStatus: OperatingStatus,
    outOfServiceDate: Option<int>,
    authorities: seq<Authority>,
    insurance: seq<Filing>)

  /** A registry's signed word: this record, from an upstream last synced then. */
  datatype Attestation = Attestation(registryId: string, usdot: string, record: Option<Record>, asOf: int, upstreamAsOf: Option<int>)

  function Sync(a: Attestation): int { if a.upstreamAsOf.Some? then a.upstreamAsOf.value else a.asOf }

  datatype Cancellation = Cancellation(filedDate: int, effectiveDate: int)

  /** An insurer's signed word about its own policy. */
  datatype InsurerAttestation = InsurerAttestation(
    insurerId: string,
    usdot: string,
    policyNumber: string,
    effectiveDate: int,
    coverageToUsd: int,
    cancellation: Option<Cancellation>,
    noticeDays: int,
    asOf: int)

  function FindPolicy(fs: seq<Filing>, p: string): Option<Filing> {
    if fs == [] then None else if fs[0].policyNumber == p then Some(fs[0]) else FindPolicy(fs[1..], p)
  }
}
