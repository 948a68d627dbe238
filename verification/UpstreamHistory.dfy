/**
 Every history an upstream may have, and the theorems of accountability over all of them: a mirror
 that signs its true sync time is never convicted, one that signs a later day is.
 */
module UpstreamHistory {
  import opened Wrappers
  import opened Registry
  import opened Accountability

  /** What happens to one entity's filings at the upstream, and when. */
  datatype Event =
    | File(at: int, filing: Filing)
    | Cancel(at: int, policyNumber: string, effective: int, filed: Option<int>, received: Option<int>)
    | Drop(at: int, policyNumber: string)

  function WithCancellation(f: Filing, e: Event): Filing
    requires e.Cancel?
  {
    if f.policyNumber == e.policyNumber
    then f.(cancellationDate := Some(e.effective), filedDate := e.filed, receivedDate := e.received)
    else f
  }

  function CancelIn(fs: seq<Filing>, e: Event): seq<Filing>
    requires e.Cancel?
  {
    if fs == [] then [] else [WithCancellation(fs[0], e)] + CancelIn(fs[1..], e)
  }

  function Without(fs: seq<Filing>, p: string): seq<Filing> {
    if fs == [] then [] else (if fs[0].policyNumber == p then [] else [fs[0]]) + Without(fs[1..], p)
  }

  function Changed(fs: seq<Filing>, e: Event): seq<Filing> {
    match e
    case File(_, f) => fs + [f]
    case Cancel(_, _, _, _, _) => CancelIn(fs, e)
    case Drop(_, p) => Without(fs, p)
  }

  function Published(h: seq<Event>, n: nat): seq<Filing>
    requires n <= |h|
  {
    if n == 0 then [] else Changed(Published(h, n - 1), h[n - 1])
  }

  /** How many events have happened by `t`. */
  function Happened(h: seq<Event>, t: int): (n: nat)
    ensures n <= |h|
  {
    if h == [] || h[0].at > t then 0 else 1 + Happened(h[1..], t)
  }

  /** What the upstream publishes at `t`. */
  function RecordAt(h: seq<Event>, t: int): seq<Filing> { Published(h, Happened(h, t)) }

  /** How policy `p` stands after the first `n` events. */
  function Track(h: seq<Event>, n: nat, p: string): Option<Filing>
    requires n <= |h|
  {
    FindPolicy(Published(h, n), p)
  }

  // ---------------------------------------------------------------- orderly histories

  /** A policy is filed once, and a cancellation is never withdrawn or postponed: cancelled again only for an earlier day. */
  ghost predicate SteadyAt(h: seq<Event>, i: nat)
    requires i < |h|
  {
    match h[i]
    case File(_, f) => forall j :: 0 <= j < i && h[j].File? ==> h[j].filing.policyNumber != f.policyNumber
    case Cancel(_, p, effective, _, _) =>
      var s := Track(h, i, p); s.Some? && s.value.cancellationDate.Some? ==> effective <= s.value.cancellationDate.value
    case Drop(_, _) => true
  }

  ghost predicate Steady(h: seq<Event>) {
    && (forall i, j :: 0 <= i < j < |h| ==> h[i].at <= h[j].at)
    && (forall i :: 0 <= i < |h| ==> SteadyAt(h, i))
  }

  /** The day a cancellation is said to be received is not before the day it was published. */
  predicate NotBackdated(f: Filing, at: int) { ShowsCancellation(f) ==> DayOf(at) <= ReceivedDay(f) }

  predicate DatedAt(h: seq<Event>, i: nat)
    requires i < |h|
  {
    match h[i]
    case File(at, f) => NotBackdated(f, at)
    case Cancel(at, _, _, filed, received) => filed.Some? ==> DayOf(at) <= if received.Some? then received.value else filed.value
    case Drop(_, _) => true
  }

  ghost predicate Orderly(h: seq<Event>) {
    Steady(h) && forall i :: 0 <= i < |h| ==> DatedAt(h, i)
  }

  // ---------------------------------------------------------------- tracking one policy

  lemma {:induction false} FindInAppended(fs: seq<Filing>, f: Filing, p: string)
    ensures FindPolicy(fs + [f], p) == if FindPolicy(fs, p).Some? then FindPolicy(fs, p) else if f.policyNumber == p then Some(f) else None
  {
    if fs == [] {
      assert (fs + [f])[0] == f && (fs + [f])[1..] == [];
    } else {
      assert (fs + [f])[0] == fs[0] && (fs + [f])[1..] == fs[1..] + [f];
      FindInAppended(fs[1..], f, p);
    }
  }

  lemma {:induction false} FindInCancelled(fs: seq<Filing>, e: Event, p: string)
    requires e.Cancel?
    ensures FindPolicy(CancelIn(fs, e), p) == if FindPolicy(fs, p).Some? then Some(WithCancellation(FindPolicy(fs, p).value, e)) else None
  {
    if fs != [] { FindInCancelled(fs[1..], e, p); }
  }

  lemma {:induction false} FindInDropped(fs: seq<Filing>, q: string, p: string)
    ensures FindPolicy(Without(fs, q), p) == if q == p then None else FindPolicy(fs, p)
  {
    if fs != [] {
      FindInDropped(fs[1..], q, p);
      if fs[0].policyNumber == q {
        assert Without(fs, q) == Without(fs[1..], q);
      } else {
        assert Without(fs, q)[0] == fs[0] && Without(fs, q)[1..] == Without(fs[1..], q);
      }
    }
  }

  lemma {:induction false} FoundIsNamed(fs: seq<Filing>, p: string)
    ensures FindPolicy(fs, p).Some? ==> FindPolicy(fs, p).value in fs && FindPolicy(fs, p).value.policyNumber == p
  {
    if fs != [] && fs[0].policyNumber != p { FoundIsNamed(fs[1..], p); }
  }

  /** One event's effect on one policy. */
  lemma TrackStep(h: seq<Event>, n: nat, p: string)
    requires n < |h|
    ensures var s, t := Track(h, n, p), Track(h, n + 1, p);
      match h[n]
      case File(_, f) => t == if s.Some? then s else if f.policyNumber == p then Some(f) else None
      case Cancel(_, q, _, _, _) => t == if s.Some? && q == p then Some(WithCancellation(s.value, h[n])) else s
      case Drop(_, q) => t == if q == p then None else s
  {
    var fs := Published(h, n);
    FoundIsNamed(fs, p);
    match h[n] {
      case File(_, f) => FindInAppended(fs, f, p);
      case Cancel(_, q, _, _, _) => FindInCancelled(fs, h[n], p);
      case Drop(_, q) => FindInDropped(fs, q, p);
    }
  }

  ghost predicate FiledBefore(h: seq<Event>, n: nat, p: string)
    requires n <= |h|
  {
    exists k :: 0 <= k < n && h[k].File? && h[k].filing.policyNumber == p
  }

  lemma {:induction false} ShownWasFiled(h: seq<Event>, n: nat, p: string)
    requires n <= |h| && Track(h, n, p).Some?
    ensures FiledBefore(h, n, p)
  {
    if n > 0 {
      TrackStep(h, n - 1, p);
      if Track(h, n - 1, p).Some? { ShownWasFiled(h, n - 1, p); }
    }
  }

  /** Not shown, or shown cancelled no later than this day. */
  predicate GoneBy(s: Option<Filing>, day: int) { s.Some? ==> CancelledBy(s.value, day) }

  /** Once a filed policy is gone by a day it stays gone by that day. */
  lemma {:induction false} StaysGone(h: seq<Event>, i: nat, j: nat, p: string, day: int)
    requires Steady(h) && i <= j <= |h| && FiledBefore(h, i, p) && GoneBy(Track(h, i, p), day)
    ensures GoneBy(Track(h, j, p), day)
    decreases j
  {
    if i < j {
      StaysGone(h, i, j - 1, p, day);
      FiledStays(h, i, j - 1, p);
      GoneStepByStep(h, j - 1, p, day);
    }
  }

  lemma FiledStays(h: seq<Event>, i: nat, j: nat, p: string)
    requires i <= j <= |h| && FiledBefore(h, i, p)
    ensures FiledBefore(h, j, p)
  {
  }

  lemma GoneStepByStep(h: seq<Event>, n: nat, p: string, day: int)
    requires n < |h| && SteadyAt(h, n) && FiledBefore(h, n, p) && GoneBy(Track(h, n, p), day)
    ensures GoneBy(Track(h, n + 1, p), day)
  {
    TrackStep(h, n, p);
  }

  /** A shown cancellation was published by some event, and has stood since. */
  lemma {:induction false} CancellationHasEvent(h: seq<Event>, n: nat, p: string) returns (k: nat)
    requires Steady(h) && n <= |h| && Track(h, n, p).Some? && ShowsCancellation(Track(h, n, p).value)
    ensures k < n && Track(h, k, p) != Track(h, n, p) && forall j: nat :: k < j <= n ==> Track(h, j, p) == Track(h, n, p)
  {
    TrackStep(h, n - 1, p);
    if Track(h, n - 1, p) == Track(h, n, p) {
      k := CancellationHasEvent(h, n - 1, p);
    } else {
      k := n - 1;
    }
  }

  /** In an orderly history that was on the day it was received or before. */
  lemma PublishedInTime(h: seq<Event>, k: nat, p: string)
    requires Orderly(h) && k < |h| && Track(h, k, p) != Track(h, k + 1, p)
    requires Track(h, k + 1, p).Some? && ShowsCancellation(Track(h, k + 1, p).value)
    ensures DayOf(h[k].at) <= ReceivedDay(Track(h, k + 1, p).value)
  {
    TrackStep(h, k, p);
    assert DatedAt(h, k);
  }

  lemma {:induction false} HappenedSplits(h: seq<Event>, t: int, k: nat)
    requires (forall i, j :: 0 <= i < j < |h| ==> h[i].at <= h[j].at) && k < |h|
    ensures h[k].at <= t <==> k < Happened(h, t)
  {
    if h[0].at > t {
    } else if k > 0 {
      HappenedSplits(h[1..], t, k - 1);
    }
  }

  // ---------------------------------------------------------------- one filing per policy number

  predicate Unique(fs: seq<Filing>) { forall f :: f in fs ==> FindPolicy(fs, f.policyNumber) == Some(f) }

  lemma {:induction false} CancelInMembers(fs: seq<Filing>, e: Event, g: Filing) returns (f: Filing)
    requires e.Cancel? && g in CancelIn(fs, e)
    ensures f in fs && g == WithCancellation(f, e)
  {
    if g == WithCancellation(fs[0], e) {
      f := fs[0];
    } else {
      f := CancelInMembers(fs[1..], e, g);
    }
  }

  lemma {:induction false} WithoutMembers(fs: seq<Filing>, p: string)
    ensures forall f :: f in Without(fs, p) ==> f in fs && f.policyNumber != p
  {
    if fs != [] { WithoutMembers(fs[1..], p); }
  }

  lemma {:induction false} PublishedIsUnique(h: seq<Event>, n: nat)
    requires Steady(h) && n <= |h|
    ensures Unique(Published(h, n))
  {
    if n > 0 {
      PublishedIsUnique(h, n - 1);
      var before, after := Published(h, n - 1), Published(h, n);
      forall g | g in after ensures FindPolicy(after, g.policyNumber) == Some(g) {
        ChangedStaysUnique(h, n - 1, g);
      }
    }
  }

  lemma ChangedStaysUnique(h: seq<Event>, n: nat, g: Filing)
    requires Steady(h) && n < |h| && Unique(Published(h, n)) && g in Published(h, n + 1)
    ensures FindPolicy(Published(h, n + 1), g.policyNumber) == Some(g)
  {
    var fs := Published(h, n);
    match h[n] {
      case File(_, f) =>
        FindInAppended(fs, f, g.policyNumber);
        if g !in fs {
          assert SteadyAt(h, n);
          if Track(h, n, f.policyNumber).Some? { ShownWasFiled(h, n, f.policyNumber); }
        }
      case Cancel(_, _, _, _, _) =>
        var f := CancelInMembers(fs, h[n], g);
        FindInCancelled(fs, h[n], g.policyNumber);
      case Drop(_, q) =>
        WithoutMembers(fs, q);
        FindInDropped(fs, q, g.policyNumber);
    }
  }

  // ---------------------------------------------------------------- judged by true evidence

  /** Somebody's word showed this cancellation while the upstream published it. */
  ghost predicate TrueEvidence(h: seq<Event>, e: Evidence) {
    exists t, f :: ShownAt(h, e, t, f)
  }

  ghost predicate ShownAt(h: seq<Event>, e: Evidence, t: int, f: Filing) {
    f in RecordAt(h, t) && ShowsCancellation(f) && e == EvidenceOf(e.source, f, e.asOf)
  }

  /** A word that shows the upstream's record as of `t` makes only true evidence. */
  lemma TrueWordsMakeTrueEvidence(h: seq<Event>, a: Attestation, t: int)
    requires Insurance(a) == RecordAt(h, t)
    ensures forall e :: e in FilingsShownBy(a) ==> TrueEvidence(h, e)
  {
    ShownMembers(a.registryId, Insurance(a), Sync(a));
    forall e | e in FilingsShownBy(a) ensures TrueEvidence(h, e) {
      var f :| f in Insurance(a) && ShowsCancellation(f) && e == EvidenceOf(a.registryId, f, Sync(a));
      assert ShownAt(h, e, t, f);
    }
  }

  /** A cancellation received on an earlier day than `t` is in whatever the upstream publishes at `t`. */
  lemma PublishedByThen(h: seq<Event>, e: Evidence, t: int)
    requires Orderly(h) && TrueEvidence(h, e) && e.receivedDate < DayOf(t)
    ensures GoneBy(FindPolicy(RecordAt(h, t), e.policyNumber), e.cancellationDate)
  {
    var u, f :| ShownAt(h, e, u, f);
    var n := Happened(h, u);
    var p := e.policyNumber;
    PublishedIsUnique(h, n);
    assert Track(h, n, p) == Some(f);
    var k := CancellationHasEvent(h, n, p);
    PublishedInTime(h, k, p);
    assert h[k].at <= t;
    HappenedSplits(h, t, k);
    ShownWasFiled(h, k + 1, p);
    StaysGone(h, k + 1, Happened(h, t), p, e.cancellationDate);
  }

  /**
   A mirror that claims a sync no later than what it serves is never convicted, however stale it is
   and whatever words anybody else has signed about records the upstream did publish.
   */
  lemma HonestMirrorIsNeverConvicted(h: seq<Event>, x: Attestation, served: int, evidence: seq<Evidence>)
    requires Orderly(h) && Insurance(x) == RecordAt(h, served) && Sync(x) <= served
    requires forall e :: e in evidence ==> TrueEvidence(h, e)
    ensures !Convicted(x, evidence)
  {
    forall i | 0 <= i < |evidence| ensures !Damns(x, evidence[i]) {
      var e := evidence[i];
      assert e in evidence;
      if e.receivedDate < DayOf(Sync(x)) {
        assert DayOf(Sync(x)) <= DayOf(served);
        PublishedByThen(h, e, served);
      }
    }
  }

  /** Event `k` publishes cancellation `e` of a policy then shown without it. */
  ghost predicate Publishes(h: seq<Event>, k: nat, e: Evidence)
    requires k < |h|
  {
    && h[k].Cancel? && h[k].policyNumber == e.policyNumber && h[k].effective == e.cancellationDate
    && Track(h, k, e.policyNumber).Some? && !CancelledBy(Track(h, k, e.policyNumber).value, e.cancellationDate)
  }

  /**
   A mirror frozen before a cancellation is published, and claiming a sync on a later day than its
   receipt, is convicted by any word that shows it, if the frozen record shows the policy at all.
   */
  lemma FrozenLiarIsConvicted(h: seq<Event>, x: Attestation, frozen: int, k: nat, e: Evidence, evidence: seq<Evidence>)
    requires Steady(h) && Insurance(x) == RecordAt(h, frozen)
    requires k < |h| && frozen < h[k].at && Publishes(h, k, e)
    requires FindPolicy(Insurance(x), e.policyNumber).Some?
    requires e in evidence && (e.source != x.registryId || e.asOf != Sync(x))
    requires e.receivedDate < DayOf(Sync(x))
    ensures Convicted(x, evidence)
  {
    var n := Happened(h, frozen);
    HappenedSplits(h, frozen, k);
    ShownWasFiled(h, n, e.policyNumber);
    if CancelledBy(Track(h, n, e.policyNumber).value, e.cancellationDate) {
      StaysGone(h, n, k, e.policyNumber, e.cancellationDate);
    }
    var i :| 0 <= i < |evidence| && evidence[i] == e;
    assert Damns(x, evidence[i]);
  }

  // ---------------------------------------------------------------- exactly who can be convicted

  /**
   Event `k`, later than the record read at `held`, publishes a cancellation of a policy that record shows without
   it; the cancellation was received before `day` and outlasts the instant it was published in.
   */
  ghost predicate Exposes(h: seq<Event>, held: int, day: int, k: nat) {
    && k < |h| && h[k].Cancel? && held < h[k].at && h[k].filed.Some?
    && (if h[k].received.Some? then h[k].received.value else h[k].filed.value) < day
    && var p, own := h[k].policyNumber, FindPolicy(RecordAt(h, held), h[k].policyNumber);
      && own.Some? && !CancelledBy(own.value, h[k].effective)
      && Track(h, k + 1, p).Some? && FindPolicy(RecordAt(h, h[k].at), p) == Track(h, k + 1, p)
  }

  ghost predicate Exposed(h: seq<Event>, held: int, day: int) { exists k :: Exposes(h, held, day, k) }

  /** True evidence from somebody else convicts. */
  ghost predicate Convictable(h: seq<Event>, x: Attestation) {
    exists e :: TrueEvidence(h, e) && e.source != x.registryId && Damns(x, e)
  }

  lemma DamningComesFromAnEvent(h: seq<Event>, x: Attestation, held: int, e: Evidence)
    requires Steady(h) && Insurance(x) == RecordAt(h, held) && TrueEvidence(h, e) && Damns(x, e)
    ensures Exposed(h, held, DayOf(Sync(x)))
  {
    var u, f :| ShownAt(h, e, u, f);
    var n, m, p := Happened(h, u), Happened(h, held), e.policyNumber;
    PublishedIsUnique(h, n);
    assert Track(h, n, p) == Some(f);
    var k := CancellationHasEvent(h, n, p);
    assert Track(h, k + 1, p) == Some(f);
    TrackStep(h, k, p);
    HappenedSplits(h, held, k);
    if k < m {
      ShownWasFiled(h, k + 1, p);
      StaysGone(h, k + 1, m, p, e.cancellationDate);
    }
    ShownWasFiled(h, m, p);
    assert SteadyAt(h, k);
    assert h[k].Cancel?;
    var j := Happened(h, h[k].at);
    HappenedSplits(h, h[k].at, k);
    HappenedSplits(h, u, k);
    if n < |h| {
      HappenedSplits(h, h[k].at, n);
      HappenedSplits(h, u, n);
    }
    assert k < j <= n && h[k].policyNumber == p && Track(h, j, p) == Track(h, n, p);
    assert Exposes(h, held, DayOf(Sync(x)), k);
  }

  lemma ExposedIsConvictable(h: seq<Event>, x: Attestation, held: int, k: nat)
    requires Insurance(x) == RecordAt(h, held) && Exposes(h, held, DayOf(Sync(x)), k)
    ensures Convictable(h, x)
  {
    var p := h[k].policyNumber;
    TrackStep(h, k, p);
    FoundIsNamed(Published(h, k), p);
    FoundIsNamed(RecordAt(h, h[k].at), p);
    var f := Track(h, k + 1, p).value;
    var other := x.registryId + "'";
    assert |other| != |x.registryId|;
    var e := EvidenceOf(other, f, 0);
    assert ShownAt(h, e, h[k].at, f);
  }

  /**
   Whoever shows the record of `held` and claims a sync can be convicted, by true evidence of whatever source or
   from somebody else alone, exactly when an event after `held` exposes it.
   */
  lemma ConvictableExactlyWhenExposed(h: seq<Event>, x: Attestation, held: int)
    requires Steady(h) && Insurance(x) == RecordAt(h, held)
    ensures Convictable(h, x) <==> Exposed(h, held, DayOf(Sync(x)))
    ensures (exists e :: TrueEvidence(h, e) && Damns(x, e)) <==> Exposed(h, held, DayOf(Sync(x)))
  {
    forall e | TrueEvidence(h, e) && Damns(x, e) ensures Exposed(h, held, DayOf(Sync(x))) {
      DamningComesFromAnEvent(h, x, held, e);
    }
    if Exposed(h, held, DayOf(Sync(x))) {
      var k :| Exposes(h, held, DayOf(Sync(x)), k);
      ExposedIsConvictable(h, x, held, k);
    }
  }

  /** Shows what was published when it claims to have synced. */
  ghost predicate Truthful(h: seq<Event>, x: Attestation) { Insurance(x) == RecordAt(h, Sync(x)) }

  ghost predicate Backdated(h: seq<Event>, t: int, k: nat) { Exposes(h, t, DayOf(t), k) }

  /**
   What truthful receipt days are for, exactly. Mirrors that show what was published when they synced, and say so, are
   safe from all true evidence exactly when no cancellation is published later than some moment under a receipt on an
   earlier day than that moment's, of a policy then shown without it.
   */
  lemma TruthfulMirrorsAreSafeExactlyWhen(h: seq<Event>)
    requires Steady(h)
    ensures (forall x :: Truthful(h, x) ==> !Convictable(h, x)) <==> !(exists t, k :: Backdated(h, t, k))
  {
    forall x | Truthful(h, x) ensures Convictable(h, x) <==> exists k :: Backdated(h, Sync(x), k) {
      ConvictableExactlyWhenExposed(h, x, Sync(x));
      if Exposed(h, Sync(x), DayOf(Sync(x))) {
        var k :| Exposes(h, Sync(x), DayOf(Sync(x)), k);
        assert Backdated(h, Sync(x), k);
      }
      if k :| Backdated(h, Sync(x), k) { assert Exposes(h, Sync(x), DayOf(Sync(x)), k); }
    }
    if t, k :| Backdated(h, t, k) {
      var x := Attestation("r", "", Some(Record("", CARRIER, AUTHORIZED, None, [], RecordAt(h, t))), t, Some(t));
      assert Truthful(h, x);
    }
  }

  // ---------------------------------------------------------------- what the two assumptions are for

  /**
   Receipt days must not precede publication. Once a notice is published on a later day than the day it is said
   to be received (or filed, where no receipt is stated), a mirror that synced in between, says so, and shows
   exactly what was published is convicted by anybody's true word.
   */
  lemma BackdatedReceiptConvictsAnHonestMirror(h: seq<Event>, x: Attestation, k: nat, e: Evidence, evidence: seq<Evidence>)
    requires (forall i, j :: 0 <= i < j < |h| ==> h[i].at <= h[j].at)
    requires Insurance(x) == RecordAt(h, Sync(x))
    requires k < |h| && Publishes(h, k, e) && Sync(x) < h[k].at && (k > 0 ==> h[k - 1].at <= Sync(x))
    requires e.receivedDate < DayOf(Sync(x)) && e in evidence && e.source != x.registryId
    ensures Convicted(x, evidence)
  {
    HappenedSplits(h, Sync(x), k);
    if k > 0 { HappenedSplits(h, Sync(x), k - 1); }
    var i :| 0 <= i < |evidence| && evidence[i] == e;
    assert Damns(x, evidence[i]);
  }

  /**
   An insurer's disclosure counts as evidence against mirrors under its filed day. Against a mirror that shows the
   policy and not yet the cancellation, it convicts exactly when the mirror's claimed sync is on a later day than
   the filing, whether or not the registry had published the notice by then.
   */
  lemma InsurersWordConvictsALaggingRegistrysMirror(h: seq<Event>, x: Attestation, a: InsurerAttestation)
    requires Insurance(x) == RecordAt(h, Sync(x)) && a.cancellation.Some?
    requires FindPolicy(Insurance(x), a.policyNumber).Some?
    requires !CancelledBy(FindPolicy(Insurance(x), a.policyNumber).value, a.cancellation.value.effectiveDate)
    requires x.registryId != InsurerSource(a.insurerId)
    ensures Convicted(x, [FilingShownByInsurer(a).value]) <==> a.cancellation.value.filedDate < DayOf(Sync(x))
  {
    var e := FilingShownByInsurer(a).value;
    assert [e][0] == e;
  }

  // ---------------------------------------------------------------- the insurer and its own filings

  /** A cancellation notice the insurer files, for one policy. */
  datatype Notice = Notice(at: int, filed: int, effective: int)

  /** A later notice only advances the date. */
  ghost predicate SteadyNotices(ns: seq<Notice>) {
    forall i, j :: 0 <= i < j < |ns| ==> ns[i].at <= ns[j].at && ns[j].effective <= ns[i].effective
  }

  /** And none is dated before the day it is filed. */
  ghost predicate OrderlyNotices(ns: seq<Notice>) {
    SteadyNotices(ns) && forall i :: 0 <= i < |ns| ==> DayOf(ns[i].at) <= ns[i].filed
  }

  /** What the insurer has to disclose at `t`: its latest notice by then. */
  function ToDisclose(ns: seq<Notice>, t: int): Option<Cancellation> {
    if ns == [] then None
    else if ns[|ns| - 1].at <= t then Some(Cancellation(ns[|ns| - 1].filed, ns[|ns| - 1].effective))
    else ToDisclose(ns[..|ns| - 1], t)
  }

  ghost predicate StemsFrom(ns: seq<Notice>, e: Evidence) {
    exists k :: 0 <= k < |ns| && ns[k].filed == e.filedDate && ns[k].effective == e.cancellationDate
  }

  lemma {:induction false} DisclosureCovers(ns: seq<Notice>, t: int, k: nat)
    requires SteadyNotices(ns) && k < |ns| && ns[k].at <= t
    ensures ToDisclose(ns, t).Some? && ToDisclose(ns, t).value.effectiveDate <= ns[k].effective
  {
    var last := |ns| - 1;
    if ns[last].at > t { DisclosureCovers(ns[..last], t, k); }
  }

  /** An insurer that discloses its latest notice is never convicted by evidence that stems from its own filings. */
  lemma HonestInsurerIsNeverConvicted(ns: seq<Notice>, a: InsurerAttestation, evidence: seq<Evidence>)
    requires OrderlyNotices(ns) && a.cancellation == ToDisclose(ns, a.asOf)
    requires forall e :: e in evidence && e.policyNumber == a.policyNumber ==> StemsFrom(ns, e)
    ensures !InsurerConvicted(a, evidence)
  {
    forall i | 0 <= i < |evidence| ensures !DamnsInsurer(a, evidence[i]) {
      var e := evidence[i];
      assert e in evidence;
      if e.policyNumber == a.policyNumber && e.filedDate < DayOf(a.asOf) {
        var k :| 0 <= k < |ns| && ns[k].filed == e.filedDate && ns[k].effective == e.cancellationDate;
        DisclosureCovers(ns, a.asOf, k);
      }
    }
  }

  /** At `t` notice `k` is yet to come, goes below what there is to disclose, and will carry a day before that of `t`. */
  ghost predicate BackdatedNotice(ns: seq<Notice>, t: int, k: nat) {
    && k < |ns| && t < ns[k].at && ns[k].filed < DayOf(t)
    && !(ToDisclose(ns, t).Some? && ToDisclose(ns, t).value.effectiveDate <= ns[k].effective)
  }

  /** Evidence of the insurer's own filings damns its word. */
  ghost predicate ConvictableByOwnFilings(ns: seq<Notice>, a: InsurerAttestation) {
    exists e :: StemsFrom(ns, e) && DamnsInsurer(a, e)
  }

  lemma OwnFilingsConvictExactlyWhen(ns: seq<Notice>, a: InsurerAttestation)
    requires SteadyNotices(ns) && a.cancellation == ToDisclose(ns, a.asOf)
    ensures ConvictableByOwnFilings(ns, a) <==> exists k: nat :: BackdatedNotice(ns, a.asOf, k)
  {
    if e :| StemsFrom(ns, e) && DamnsInsurer(a, e) {
      var k :| 0 <= k < |ns| && ns[k].filed == e.filedDate && ns[k].effective == e.cancellationDate;
      if ns[k].at <= a.asOf { DisclosureCovers(ns, a.asOf, k); }
      assert BackdatedNotice(ns, a.asOf, k);
    }
    if k: nat :| BackdatedNotice(ns, a.asOf, k) {
      var other := InsurerSource(a.insurerId) + "'";
      assert |other| != |InsurerSource(a.insurerId)|;
      var e := Evidence(other, a.policyNumber, ns[k].effective, ns[k].filed, ns[k].filed, 0);
      assert StemsFrom(ns, e) && DamnsInsurer(a, e);
    }
  }

  /**
   Insurers that disclose their latest notice whenever they sign are safe from evidence of their own filings exactly
   when no notice is filed later than some moment under an earlier day than that moment's, cancelling sooner than
   what there was to disclose.
   */
  lemma HonestInsurersAreSafeExactlyWhen(ns: seq<Notice>)
    requires SteadyNotices(ns)
    ensures (forall a: InsurerAttestation :: a.cancellation == ToDisclose(ns, a.asOf) ==> !ConvictableByOwnFilings(ns, a))
       <==> !(exists t, k: nat :: BackdatedNotice(ns, t, k))
  {
    forall a: InsurerAttestation | a.cancellation == ToDisclose(ns, a.asOf)
      ensures ConvictableByOwnFilings(ns, a) <==> exists k: nat :: BackdatedNotice(ns, a.asOf, k)
    {
      OwnFilingsConvictExactlyWhen(ns, a);
    }
    if t, k: nat :| BackdatedNotice(ns, t, k) {
      var a := InsurerAttestation("i", "", "", 0, 0, ToDisclose(ns, t), 0, t);
      assert ConvictableByOwnFilings(ns, a);
    }
  }

  /** What an insurer discloses is the word of an earlier moment: frozen before a notice, on a later day it is convicted by any word showing the notice. */
  lemma ConcealingInsurerIsConvicted(ns: seq<Notice>, a: InsurerAttestation, frozen: int, k: nat, e: Evidence, evidence: seq<Evidence>)
    requires OrderlyNotices(ns) && a.cancellation == ToDisclose(ns, frozen)
    requires k < |ns| && frozen < ns[k].at && (forall j :: 0 <= j < k ==> ns[k].effective < ns[j].effective)
    requires e.policyNumber == a.policyNumber && e.filedDate == ns[k].filed && e.cancellationDate == ns[k].effective
    requires e in evidence && (e.source != InsurerSource(a.insurerId) || e.asOf != a.asOf)
    requires e.filedDate < DayOf(a.asOf)
    ensures InsurerConvicted(a, evidence)
  {
    DisclosedIsEarlier(ns, frozen, k);
    var i :| 0 <= i < |evidence| && evidence[i] == e;
    assert DamnsInsurer(a, evidence[i]);
  }

  lemma {:induction false} DisclosedIsEarlier(ns: seq<Notice>, t: int, k: nat)
    requires OrderlyNotices(ns) && k < |ns| && t < ns[k].at && (forall j :: 0 <= j < k ==> ns[k].effective < ns[j].effective)
    ensures ToDisclose(ns, t).Some? ==> ns[k].effective < ToDisclose(ns, t).value.effectiveDate
  {
    var last := |ns| - 1;
    assert ns[last].at > t;
    if last > k {
      DisclosedIsEarlier(ns[..last], t, k);
    } else {
      EarlierDisclosure(ns[..k], t, ns[k].effective);
    }
  }

  lemma {:induction false} EarlierDisclosure(ns: seq<Notice>, t: int, day: int)
    requires forall j :: 0 <= j < |ns| ==> day < ns[j].effective
    ensures ToDisclose(ns, t).Some? ==> day < ToDisclose(ns, t).value.effectiveDate
  {
    if ns != [] && ns[|ns| - 1].at > t { EarlierDisclosure(ns[..|ns| - 1], t, day); }
  }
}
