/**
 The mirror as it signs (src/registry/service.ts: sync, attest, freeze), and whether what it signs is
 true of its upstream.
 */
module RegistryService {
  import opened Wrappers
  import opened Registry
  import opened Accountability
  import opened UpstreamHistory

  datatype Frozen = Frozen(records: map<string, Record>, at: int, claimsCurrent: bool)

  /** What reading the upstream for one entity yields. */
  datatype Reading = Failed | Answered(record: Option<Record>)

  datatype Mirror = Mirror(
    store: map<string, Record>,
    syncedAt: map<string, int>,
    frozen: Option<Frozen>,
    syncFailures: nat)

  function Lookup(records: map<string, Record>, usdot: string): Option<Record> {
    if usdot in records then Some(records[usdot]) else None
  }

  predicate Fresh(m: Mirror, usdot: string, now: int, maxAge: int) {
    usdot in m.syncedAt && now - m.syncedAt[usdot] < maxAge
  }

  /** One sync: kept if young enough; else the upstream's answer replaces the copy, or the failure leaves copy and time alone. */
  function Synced(m: Mirror, usdot: string, now: int, maxAge: int, r: Reading): Mirror {
    if Fresh(m, usdot, now, maxAge) then m
    else if r.Failed? then m.(syncFailures := m.syncFailures + 1)
    else m.(store := if r.record.Some? then m.store[r.record.value.usdot := r.record.value] else m.store,
            syncedAt := m.syncedAt[usdot := now])
  }

  function Currency(m: Mirror, usdot: string): int { if usdot in m.syncedAt then m.syncedAt[usdot] else 0 }

  function Attested(m: Mirror, id: string, ownStore: bool, maxAge: int, usdot: string, now: int, r: Reading): (Mirror, Attestation) {
    if m.frozen.Some? then
      var f := m.frozen.value;
      (m, Attestation(id, usdot, Lookup(f.records, usdot), now, Some(if f.claimsCurrent then now else f.at)))
    else if ownStore then (m, Attestation(id, usdot, Lookup(m.store, usdot), now, Some(now)))
    else
      var t := Synced(m, usdot, now, maxAge, r);
      (t, Attestation(id, usdot, Lookup(t.store, usdot), now, Some(Currency(t, usdot))))
  }

  function FrozenAs(m: Mirror, on: bool, claimsCurrent: bool, now: int): Mirror {
    m.(frozen := if on then Some(Frozen(m.store, now, claimsCurrent)) else None)
  }

  class Service {
    const registryId: string
    /** The store is itself the upstream. */
    const ownStore: bool
    const syncMaxAgeMs: int
    var store: map<string, Record>
    var syncedAt: map<string, int>
    var frozen: Option<Frozen>
    var served: nat
    var syncFailures: nat

    constructor (registryId: string, ownStore: bool, syncMaxAgeMs: int, store: map<string, Record>)
      ensures this.registryId == registryId && this.ownStore == ownStore && this.syncMaxAgeMs == syncMaxAgeMs
      ensures View() == Mirror(store, map[], None, 0) && served == 0
    {
      this.registryId, this.ownStore, this.syncMaxAgeMs := registryId, ownStore, syncMaxAgeMs;
      this.store, syncedAt, frozen, served, syncFailures := store, map[], None, 0, 0;
    }

    function View(): Mirror
      reads this
    {
      Mirror(store, syncedAt, frozen, syncFailures)
    }

    method SyncEntity(usdot: string, now: int, r: Reading) returns (upstreamAsOf: Option<int>)
      modifies this`store, this`syncedAt, this`syncFailures
      ensures ownStore ==> View() == old(View()) && upstreamAsOf == Some(now)
      ensures !ownStore ==> View() == Synced(old(View()), usdot, now, syncMaxAgeMs, r)
      ensures !ownStore ==> upstreamAsOf == if usdot in syncedAt then Some(syncedAt[usdot]) else None
    {
      if ownStore { return Some(now); }
      var last := if usdot in syncedAt then Some(syncedAt[usdot]) else None;
      if last.Some? && now - last.value < syncMaxAgeMs { return last; }
      if r.Failed? {
        syncFailures := syncFailures + 1;
        return last;
      }
      if r.record.Some? { store := store[r.record.value.usdot := r.record.value]; }
      syncedAt := syncedAt[usdot := now];
      return Some(now);
    }

    method Attest(usdot: string, now: int, r: Reading) returns (a: Attestation)
      modifies this
      ensures (View(), a) == Attested(old(View()), registryId, ownStore, syncMaxAgeMs, usdot, now, r)
      ensures served == old(served) + 1
    {
      served := served + 1;
      var record := if frozen.Some? then Lookup(frozen.value.records, usdot) else Lookup(store, usdot);
      var upstreamAsOf := if frozen.Some? && !frozen.value.claimsCurrent then frozen.value.at else now;
      if frozen.None? && !ownStore {
        var s := SyncEntity(usdot, now, r);
        upstreamAsOf := if s.Some? then s.value else 0;
        return Attestation(registryId, usdot, Lookup(store, usdot), now, Some(upstreamAsOf));
      }
      return Attestation(registryId, usdot, record, now, Some(upstreamAsOf));
    }

    method Freeze(on: bool, claimsCurrent: bool, now: int)
      modifies this`frozen
      ensures View() == FrozenAs(old(View()), on, claimsCurrent, now)
    {
      frozen := if on then Some(Frozen(store, now, claimsCurrent)) else None;
    }
  }

  // ---------------------------------------------------------------- what a mirror of a remote upstream signs

  datatype Call = Attest(usdot: string, now: int, reading: Reading) | Freeze(on: bool, claimsCurrent: bool, now: int)

  function Call1(m: Mirror, id: string, maxAge: int, c: Call): Mirror {
    match c
    case Attest(usdot, now, r) => Attested(m, id, false, maxAge, usdot, now, r).0
    case Freeze(on, claimsCurrent, now) => FrozenAs(m, on, claimsCurrent, now)
  }

  function RunCalls(m: Mirror, id: string, maxAge: int, calls: seq<Call>): Mirror
    decreases |calls|
  {
    if calls == [] then m else RunCalls(Call1(m, id, maxAge, calls[0]), id, maxAge, calls[1..])
  }

  /** Whenever the upstream answers with a record of `usdot`, that is the record it publishes then. */
  ghost predicate Answers(h: seq<Event>, usdot: string, c: Call) {
    c.Attest? && c.reading.Answered? && c.reading.record.Some? && c.reading.record.value.usdot == usdot ==>
      c.reading.record.value.insurance == RecordAt(h, c.now)
  }

  /** When the records of one entity were read: the mirror's own copy, and the copy it was frozen with. */
  datatype Ages = Ages(live: Option<int>, iced: Option<int>)

  /** This call stores a record of `usdot`. */
  predicate Stores(m: Mirror, maxAge: int, usdot: string, c: Call) {
    && c.Attest? && m.frozen.None? && !Fresh(m, c.usdot, c.now, maxAge)
    && c.reading.Answered? && c.reading.record.Some? && c.reading.record.value.usdot == usdot
  }

  function AgesAfter(m: Mirror, maxAge: int, usdot: string, c: Call, g: Ages): Ages {
    if Stores(m, maxAge, usdot, c) then g.(live := Some(c.now))
    else if c.Freeze? && c.on then g.(iced := g.live)
    else g
  }

  function RunAges(m: Mirror, id: string, maxAge: int, usdot: string, calls: seq<Call>, g: Ages): Ages
    decreases |calls|
  {
    if calls == [] then g
    else RunAges(Call1(m, id, maxAge, calls[0]), id, maxAge, usdot, calls[1..], AgesAfter(m, maxAge, usdot, calls[0], g))
  }

  /** These records show about `usdot` what the upstream published when it was read, and nothing if it never was. */
  ghost predicate Backed(records: map<string, Record>, h: seq<Event>, usdot: string, read: Option<int>) {
    match read
    case None => usdot !in records
    case Some(t) => usdot in records && records[usdot].insurance == RecordAt(h, t)
  }

  ghost predicate Aged(m: Mirror, h: seq<Event>, usdot: string, g: Ages) {
    && Backed(m.store, h, usdot, g.live)
    && (m.frozen.Some? ==> Backed(m.frozen.value.records, h, usdot, g.iced))
  }

  lemma {:induction false} EveryRunKnowsItsAges(m: Mirror, id: string, maxAge: int, calls: seq<Call>, h: seq<Event>, usdot: string, g: Ages)
    requires Aged(m, h, usdot, g) && forall c :: c in calls ==> Answers(h, usdot, c)
    ensures Aged(RunCalls(m, id, maxAge, calls), h, usdot, RunAges(m, id, maxAge, usdot, calls, g))
    decreases |calls|
  {
    if calls != [] {
      assert Answers(h, usdot, calls[0]);
      EveryRunKnowsItsAges(Call1(m, id, maxAge, calls[0]), id, maxAge, calls[1..], h, usdot, AgesAfter(m, maxAge, usdot, calls[0], g));
    }
  }

  /** When the copy a word is made from was read. */
  function Basis(m: Mirror, g: Ages): Option<int> { if m.frozen.Some? then g.iced else g.live }

  /**
   Whatever has happened to a mirror (failed reads, "not found" answers, stale copies, freezing and thawing, with or
   without claiming to be current), true evidence convicts the next word it signs exactly when that word is made
   from some record, and an event since that record was read exposes it to the claimed sync.
   */
  lemma ConvictableExactlyWhenOvertaken(
      m: Mirror, id: string, maxAge: int, calls: seq<Call>, last: Call, h: seq<Event>, g: Ages)
    requires Steady(h) && last.Attest? && Aged(m, h, last.usdot, g) && (forall c :: c in calls + [last] ==> Answers(h, last.usdot, c))
    ensures var before, then_ := RunCalls(m, id, maxAge, calls), RunAges(m, id, maxAge, last.usdot, calls, g);
      var (after, a) := Attested(before, id, false, maxAge, last.usdot, last.now, last.reading);
      var read := Basis(after, AgesAfter(before, maxAge, last.usdot, last, then_));
      Convictable(h, a) <==> read.Some? && Exposed(h, read.value, DayOf(Sync(a)))
  {
    var before, then_ := RunCalls(m, id, maxAge, calls), RunAges(m, id, maxAge, last.usdot, calls, g);
    assert last in calls + [last];
    EveryRunKnowsItsAges(m, id, maxAge, calls, h, last.usdot, g);
    WordConvictableExactlyWhenOvertaken(before, id, maxAge, last, h, then_);
  }

  lemma WordConvictableExactlyWhenOvertaken(m: Mirror, id: string, maxAge: int, c: Call, h: seq<Event>, g: Ages)
    requires Steady(h) && c.Attest? && Aged(m, h, c.usdot, g) && Answers(h, c.usdot, c)
    ensures var (after, a) := Attested(m, id, false, maxAge, c.usdot, c.now, c.reading);
      var read := Basis(after, AgesAfter(m, maxAge, c.usdot, c, g));
      Convictable(h, a) <==> read.Some? && Exposed(h, read.value, DayOf(Sync(a)))
  {
    var (after, a) := Attested(m, id, false, maxAge, c.usdot, c.now, c.reading);
    var read := Basis(after, AgesAfter(m, maxAge, c.usdot, c, g));
    if read.Some? {
      assert Insurance(a) == RecordAt(h, read.value);
      ConvictableExactlyWhenExposed(h, a, read.value);
    } else {
      assert Insurance(a) == [];
    }
  }

  // ---------------------------------------------------------------- the copy is as old as the claim

  /** What the mirror holds about the entity is what the upstream published at the time it claims. */
  ghost predicate Current(m: Mirror, h: seq<Event>, usdot: string) {
    usdot in m.syncedAt ==> usdot in m.store && m.store[usdot].insurance == RecordAt(h, m.syncedAt[usdot])
  }

  /** The answer is a record of the entity asked for. */
  predicate Found(c: Call) {
    c.Attest? && c.reading.Answered? ==> c.reading.record.Some? && c.reading.record.value.usdot == c.usdot
  }

  lemma {:induction false} EveryRunOfFindsStaysCurrent(m: Mirror, id: string, maxAge: int, calls: seq<Call>, h: seq<Event>, usdot: string)
    requires Current(m, h, usdot) && forall c :: c in calls ==> Answers(h, usdot, c) && Found(c)
    ensures Current(RunCalls(m, id, maxAge, calls), h, usdot)
    decreases |calls|
  {
    if calls != [] {
      assert Answers(h, usdot, calls[0]) && Found(calls[0]);
      EveryRunOfFindsStaysCurrent(Call1(m, id, maxAge, calls[0]), id, maxAge, calls[1..], h, usdot);
    }
  }

  /**
   As long as no reading came back "not found", a mirror that is not frozen and has ever read its upstream about the
   entity signs a word no true evidence convicts, whatever else has happened to it.
   */
  lemma UnfrozenMirrorIsNeverConvicted(
      m: Mirror, id: string, maxAge: int, calls: seq<Call>, last: Call, h: seq<Event>, evidence: seq<Evidence>)
    requires Orderly(h) && m.syncedAt == map[]
    requires last.Attest? && (forall c :: c in calls + [last] ==> Answers(h, last.usdot, c) && Found(c))
    requires forall e :: e in evidence ==> TrueEvidence(h, e)
    ensures var (t, a) := Attested(RunCalls(m, id, maxAge, calls), id, false, maxAge, last.usdot, last.now, last.reading);
      t.frozen.None? && last.usdot in t.syncedAt ==> !Convicted(a, evidence)
  {
    var before := RunCalls(m, id, maxAge, calls);
    assert last in calls + [last];
    EveryRunOfFindsStaysCurrent(m, id, maxAge, calls, h, last.usdot);
    var (t, a) := Attested(before, id, false, maxAge, last.usdot, last.now, last.reading);
    assert t == Call1(before, id, maxAge, last);
    EveryRunOfFindsStaysCurrent(before, id, maxAge, [last], h, last.usdot);
    assert RunCalls(before, id, maxAge, [last]) == RunCalls(t, id, maxAge, [last][1..]) == t;
    if t.frozen.None? && last.usdot in t.syncedAt {
      HonestMirrorIsNeverConvicted(h, a, t.syncedAt[last.usdot], evidence);
    }
  }

  // ---------------------------------------------------------------- where the claim outruns the copy

  /**
   A reading that comes back "not found" leaves the old copy and still moves the sync time. If a cancellation was
   published since the copy was read, and received before this day, the mirror is convicted by any word showing it.
   */
  lemma NotFoundConvictsAnHonestMirror(
      m: Mirror, id: string, maxAge: int, usdot: string, now: int, h: seq<Event>, k: nat, e: Evidence, evidence: seq<Evidence>)
    requires Steady(h) && m.frozen.None? && Current(m, h, usdot) && usdot in m.syncedAt && !Fresh(m, usdot, now, maxAge)
    requires k < |h| && m.syncedAt[usdot] < h[k].at && Publishes(h, k, e)
    requires FindPolicy(m.store[usdot].insurance, e.policyNumber).Some?
    requires e in evidence && e.source != id && e.receivedDate < DayOf(now)
    ensures Convicted(Attested(m, id, false, maxAge, usdot, now, Answered(None)).1, evidence)
  {
    FrozenLiarIsConvicted(h, Attested(m, id, false, maxAge, usdot, now, Answered(None)).1, m.syncedAt[usdot], k, e, evidence);
  }

  /** After a "not found" reading a current mirror can be convicted exactly when an event since its last record exposes it to the present day. */
  lemma NotFoundConvictsExactlyWhen(m: Mirror, id: string, maxAge: int, usdot: string, now: int, h: seq<Event>)
    requires Steady(h) && m.frozen.None? && Current(m, h, usdot) && usdot in m.syncedAt && !Fresh(m, usdot, now, maxAge)
    ensures Convictable(h, Attested(m, id, false, maxAge, usdot, now, Answered(None)).1) <==> Exposed(h, m.syncedAt[usdot], DayOf(now))
  {
    ConvictableExactlyWhenExposed(h, Attested(m, id, false, maxAge, usdot, now, Answered(None)).1, m.syncedAt[usdot]);
  }

  /** Frozen at the true record of that moment and saying so, a mirror is merely stale. */
  lemma FrozenAtTheTruthIsNeverConvicted(m: Mirror, id: string, ownStore: bool, maxAge: int, usdot: string, now: int, r: Reading, h: seq<Event>, evidence: seq<Evidence>)
    requires Orderly(h) && m.frozen.Some? && !m.frozen.value.claimsCurrent
    requires usdot in m.frozen.value.records && m.frozen.value.records[usdot].insurance == RecordAt(h, m.frozen.value.at)
    requires forall e :: e in evidence ==> TrueEvidence(h, e)
    ensures !Convicted(Attested(m, id, ownStore, maxAge, usdot, now, r).1, evidence)
  {
    HonestMirrorIsNeverConvicted(h, Attested(m, id, ownStore, maxAge, usdot, now, r).1, m.frozen.value.at, evidence);
  }

  /**
   Freezing a mirror of a remote upstream stamps the copy with the moment of freezing, not with the last sync. A
   cancellation published between the two convicts it as soon as the freeze is on a later day than the receipt,
   although it does not claim to be current.
   */
  lemma HonestFreezeOfAStaleCopyIsConvicted(
      m: Mirror, id: string, maxAge: int, usdot: string, frozenAt: int, now: int, r: Reading, h: seq<Event>, k: nat, e: Evidence, evidence: seq<Evidence>)
    requires Steady(h) && Current(m, h, usdot) && usdot in m.syncedAt
    requires k < |h| && m.syncedAt[usdot] < h[k].at && Publishes(h, k, e)
    requires FindPolicy(m.store[usdot].insurance, e.policyNumber).Some?
    requires e in evidence && e.source != id && e.receivedDate < DayOf(frozenAt)
    ensures Convicted(Attested(FrozenAs(m, true, false, frozenAt), id, false, maxAge, usdot, now, r).1, evidence)
  {
    var a := Attested(FrozenAs(m, true, false, frozenAt), id, false, maxAge, usdot, now, r).1;
    FrozenLiarIsConvicted(h, a, m.syncedAt[usdot], k, e, evidence);
  }

  /**
   A current mirror frozen at `frozenAt` can be convicted exactly when an event since its last reading exposes it:
   to the day of the freeze if it does not claim to be current, to the present day if it does.
   */
  lemma FreezeConvictsExactlyWhen(
      m: Mirror, id: string, ownStore: bool, maxAge: int, usdot: string, claimsCurrent: bool, frozenAt: int, now: int, r: Reading, h: seq<Event>)
    requires Steady(h) && Current(m, h, usdot) && usdot in m.syncedAt
    ensures Convictable(h, Attested(FrozenAs(m, true, claimsCurrent, frozenAt), id, ownStore, maxAge, usdot, now, r).1)
      <==> Exposed(h, m.syncedAt[usdot], DayOf(if claimsCurrent then now else frozenAt))
  {
    var a := Attested(FrozenAs(m, true, claimsCurrent, frozenAt), id, ownStore, maxAge, usdot, now, r).1;
    ConvictableExactlyWhenExposed(h, a, m.syncedAt[usdot]);
  }
}
