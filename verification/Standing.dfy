/**
 Standing over a window, and the unanimity of registries (src/protocol/registry.ts, insuranceStatus and
 standing; src/identity/verifier.ts, liveCheck).
 */
module Standing {
  import opened Wrappers
  import opened Registry
  import opened Accountability

  datatype Reason =
    | ENTITY_NOT_FOUND | AUTHORITY_NOT_ACTIVE | INSURANCE_LAPSED | INSURANCE_BELOW_MINIMUM | INSURANCE_CANCELLATION_PENDING

  const BIPD_GENERAL_FREIGHT := 750_000
  const BIPD_HAZMAT := 1_000_000
  const BROKER_BOND := 75_000

  datatype Options = Options(hazmat: bool, requiredBipdUsd: Option<int>, through: Option<int>)

  datatype Figures = Figures(bipd: int, cargo: int, bond: int)

  datatype InsuranceStatus = InsuranceStatus(reason: Option<Reason>, figures: Figures)

  datatype StandingResult = StandingResult(reason: Option<Reason>, insurance: Option<InsuranceStatus>, brokerAuthority: bool) {
    predicate Ok() { reason.None? }
  }

  predicate FilingActive(f: Filing, at: int) {
    Midnight(f.effectiveDate) <= at && !(f.cancellationDate.Some? && Midnight(f.cancellationDate.value) <= at)
  }

  function Max(a: int, b: int): int { if a < b then b else a }

  /** The greatest coverage of a type in force, zero if none is. */
  function Coverage(fs: seq<Filing>, typ: FilingType, at: int): int {
    if fs == [] then 0
    else Max(Coverage(fs[1..], typ, at), if fs[0].typ == typ && FilingActive(fs[0], at) then fs[0].coverageToUsd else 0)
  }

  predicate Files(fs: seq<Filing>, typ: FilingType) { exists i :: 0 <= i < |fs| && fs[i].typ == typ }

  function FiguresAt(fs: seq<Filing>, at: int): Figures {
    Figures(Coverage(fs, BIPD, at), Coverage(fs, CARGO, at), Max(Coverage(fs, BOND, at), Coverage(fs, TRUST_FUND, at)))
  }

  function RequiredBipd(o: Options): int {
    Max(if o.requiredBipdUsd.Some? then o.requiredBipdUsd.value else 0, if o.hazmat then BIPD_HAZMAT else BIPD_GENERAL_FREIGHT)
  }

  function InsuranceReason(rec: Record, g: Figures, o: Options): Option<Reason> {
    var carrier := rec.entityType == CARRIER || rec.entityType == CARRIER_BROKER;
    var broker := rec.entityType == BROKER || rec.entityType == CARRIER_BROKER;
    if carrier && g.bipd == 0 && Files(rec.insurance, BIPD) then Some(INSURANCE_LAPSED)
    else if carrier && g.bipd < RequiredBipd(o) then Some(INSURANCE_BELOW_MINIMUM)
    else if broker && g.bond == 0 && (Files(rec.insurance, BOND) || Files(rec.insurance, TRUST_FUND)) then Some(INSURANCE_LAPSED)
    else if broker && g.bond < BROKER_BOND then Some(INSURANCE_BELOW_MINIMUM)
    else None
  }

  function InsuranceAt(rec: Record, at: int, o: Options): InsuranceStatus {
    var g := FiguresAt(rec.insurance, at);
    InsuranceStatus(InsuranceReason(rec, g, o), g)
  }

  predicate Granted(a: Authority, at: int) { a.active && Midnight(a.grantDate) <= at }

  predicate AuthorityActive(rec: Record, at: int) {
    && rec.operatingStatus == AUTHORIZED
    && !(rec.outOfServiceDate.Some? && Midnight(rec.outOfServiceDate.value) <= at)
    && exists i :: 0 <= i < |rec.authorities| && Granted(rec.authorities[i], at)
         && !(rec.authorities[i].revokedDate.Some? && Midnight(rec.authorities[i].revokedDate.value) <= at)
  }

  predicate HasBrokerAuthority(rec: Record, at: int) {
    exists i :: 0 <= i < |rec.authorities| && rec.authorities[i].ofBroker && Granted(rec.authorities[i], at)
  }

  function StandingOf(record: Option<Record>, at: int, o: Options): StandingResult {
    if record.None? then StandingResult(Some(ENTITY_NOT_FOUND), None, false)
    else
      var rec := record.value;
      if !AuthorityActive(rec, at) then StandingResult(Some(AUTHORITY_NOT_ACTIVE), None, false)
      else
        var now := InsuranceAt(rec, at, o);
        if now.reason.Some? then StandingResult(now.reason, Some(now), false)
        else if o.through.Some? && o.through.value > at && InsuranceAt(rec, o.through.value, o).reason.Some?
        then StandingResult(Some(INSURANCE_CANCELLATION_PENDING), Some(now), false)
        else StandingResult(None, Some(now), HasBrokerAuthority(rec, at))
  }

  // ---------------------------------------------------------------- the window

  predicate Adequate(rec: Record, at: int, o: Options) { InsuranceAt(rec, at, o).reason.None? }

  lemma {:induction false} CoverageIsNotNegative(fs: seq<Filing>, typ: FilingType, at: int)
    ensures Coverage(fs, typ, at) >= 0
  {
    if fs != [] { CoverageIsNotNegative(fs[1..], typ, at); }
  }

  /** Whatever is in force at `s` is in force at `t`. */
  ghost predicate StaysInForce(fs: seq<Filing>, s: int, t: int) {
    forall i :: 0 <= i < |fs| && FilingActive(fs[i], s) ==> FilingActive(fs[i], t)
  }

  lemma {:induction false} CoverageStays(fs: seq<Filing>, typ: FilingType, s: int, t: int)
    requires StaysInForce(fs, s, t)
    ensures Coverage(fs, typ, s) <= Coverage(fs, typ, t)
  {
    if fs != [] {
      forall i | 0 <= i < |fs[1..]| && FilingActive(fs[1..][i], s) ensures FilingActive(fs[1..][i], t) { assert fs[1..][i] == fs[i + 1]; }
      CoverageStays(fs[1..], typ, s, t);
      CoverageIsNotNegative(fs[1..], typ, t);
    }
  }

  lemma AdequacyStays(rec: Record, s: int, t: int, o: Options)
    requires StaysInForce(rec.insurance, s, t) && Adequate(rec, s, o)
    ensures Adequate(rec, t, o)
  {
    CoverageStays(rec.insurance, BIPD, s, t);
    CoverageStays(rec.insurance, BOND, s, t);
    CoverageStays(rec.insurance, TRUST_FUND, s, t);
  }

  predicate CancelsWithin(f: Filing, at: int, through: int) { f.cancellationDate.Some? && at < Midnight(f.cancellationDate.value) <= through }

  predicate TakesEffectWithin(f: Filing, at: int, through: int) { at < Midnight(f.effectiveDate) <= through }

  /** If no filing takes effect inside the window, good standing through its end is adequate insurance at every instant of it. */
  lemma StandingCoversWindow(rec: Record, at: int, through: int, o: Options, t: int)
    requires o.through == Some(through) && at <= t <= through
    requires StandingOf(Some(rec), at, o).Ok()
    requires forall i :: 0 <= i < |rec.insurance| ==> !TakesEffectWithin(rec.insurance[i], at, through)
    ensures Adequate(rec, t, o)
  {
    assert Adequate(rec, through, o);
    AdequacyStays(rec, through, t, o);
  }

  /** The latest moment in (at, t] at which a filing is cancelled, or `at` if none is. */
  function LastDrop(fs: seq<Filing>, at: int, t: int): (d: int)
    requires at <= t
    ensures at <= d <= t
    ensures d == at || exists i :: 0 <= i < |fs| && CancelsWithin(fs[i], at, t) && Midnight(fs[i].cancellationDate.value) == d
    ensures forall i :: 0 <= i < |fs| && CancelsWithin(fs[i], at, t) ==> Midnight(fs[i].cancellationDate.value) <= d
  {
    if fs == [] then at
    else
      var r := LastDrop(fs[1..], at, t);
      assert forall i :: 0 < i < |fs| ==> fs[i] == fs[1..][i - 1];
      assert forall i :: 0 <= i < |fs[1..]| ==> fs[1..][i] == fs[i + 1];
      if CancelsWithin(fs[0], at, t) then Max(r, Midnight(fs[0].cancellationDate.value)) else r
  }

  predicate EveryDropCovered(rec: Record, at: int, through: int, o: Options) {
    forall i :: 0 <= i < |rec.insurance| && CancelsWithin(rec.insurance[i], at, through) ==> CoveredWhenDropped(rec, i, o)
  }

  predicate CoveredWhenDropped(rec: Record, i: nat, o: Options)
    requires i < |rec.insurance| && rec.insurance[i].cancellationDate.Some?
  {
    Adequate(rec, Midnight(rec.insurance[i].cancellationDate.value), o)
  }

  /**
   Exactly when insurance is adequate throughout: it is so at the start, and at every moment inside the window at which
   a filing is cancelled. Checking the two ends alone is not enough.
   */
  lemma AdequateThroughoutIff(rec: Record, at: int, through: int, o: Options)
    requires at <= through
    ensures (forall t :: at <= t <= through ==> Adequate(rec, t, o)) <==> Adequate(rec, at, o) && EveryDropCovered(rec, at, through, o)
  {
    if Adequate(rec, at, o) && EveryDropCovered(rec, at, through, o) {
      forall t | at <= t <= through ensures Adequate(rec, t, o) {
        var d := LastDrop(rec.insurance, at, t);
        if d != at {
          var i :| 0 <= i < |rec.insurance| && CancelsWithin(rec.insurance[i], at, t) && Midnight(rec.insurance[i].cancellationDate.value) == d;
          assert CoveredWhenDropped(rec, i, o);
        }
        assert Adequate(rec, d, o);
        AdequacyStays(rec, d, t, o);
      }
    }
  }

  /** A gap the two ends do not show: cover cancelled inside the window and replaced, inside it, too late. */
  lemma GapInsideTheWindow(rec: Record, o: Options)
    requires rec.entityType == CARRIER && rec.operatingStatus == AUTHORIZED && rec.outOfServiceDate.None?
    requires rec.authorities == [Authority(false, true, 0, None)]
    requires rec.insurance == [Filing(BIPD, "old", 1_000_000, 0, Some(2), Some(0), None), Filing(BIPD, "new", 1_000_000, 4, None, None, None)]
    requires o == Options(false, None, Some(Midnight(5)))
    ensures StandingOf(Some(rec), Midnight(1), o).Ok() && !Adequate(rec, Midnight(3), o)
  {
    assert Granted(rec.authorities[0], Midnight(1));
    assert AuthorityActive(rec, Midnight(1));
    TwoFilings(rec.insurance, Midnight(1));
    TwoFilings(rec.insurance, Midnight(3));
    TwoFilings(rec.insurance, Midnight(5));
  }

  lemma TwoFilings(fs: seq<Filing>, at: int)
    requires |fs| == 2 && fs[0].typ == BIPD && fs[1].typ == BIPD
    ensures Coverage(fs, BIPD, at) ==
      Max(Max(0, if FilingActive(fs[1], at) then fs[1].coverageToUsd else 0), if FilingActive(fs[0], at) then fs[0].coverageToUsd else 0)
  {
    assert fs[1..][1..] == [] && fs[1..][0] == fs[1];
    assert Coverage(fs[1..][1..], BIPD, at) == 0;
  }

  // ---------------------------------------------------------------- the insurer's own word

  function Min(a: int, b: int): int { if a < b then a else b }

  /** Through when this word alone assures coverage: the disclosed cancellation, or the statutory notice if earlier. */
  function AssuredThrough(a: InsurerAttestation): int {
    var statutory := a.asOf + a.noticeDays * MS_PER_DAY;
    if a.cancellation.None? then statutory else Min(Midnight(a.cancellation.value.effectiveDate), statutory)
  }

  function InsurerStanding(a: InsurerAttestation, at: int, through: Option<int>): Option<Reason> {
    if Midnight(a.effectiveDate) > at then Some(INSURANCE_LAPSED)
    else if a.cancellation.Some? && Midnight(a.cancellation.value.effectiveDate) <= at then Some(INSURANCE_LAPSED)
    else if through.Some? && a.cancellation.Some? && Midnight(a.cancellation.value.effectiveDate) <= through.value then Some(INSURANCE_CANCELLATION_PENDING)
    else None
  }

  // ---------------------------------------------------------------- unanimity

  datatype LiveResult = LiveResult(
    reason: Option<Reason>, figures: Option<Figures>, brokerAuthority: bool, registry: Option<string>, falseAttestations: seq<Attestation>) {
    predicate Ok() { reason.None? }
  }

  function Evidence1(atts: seq<Attestation>): seq<Evidence> {
    if atts == [] then [] else FilingsShownBy(atts[0]) + Evidence1(atts[1..])
  }

  /** The insurer's word counts only if it is of record and the mirrors' filings do not contradict it. */
  function Genuine(presented: Option<InsurerAttestation>, ofRecord: bool, evidence: seq<Evidence>): Option<InsurerAttestation> {
    if presented.Some? && ofRecord && !InsurerConvicted(presented.value, evidence) then presented else None
  }

  function WithInsurer(evidence: seq<Evidence>, ins: Option<InsurerAttestation>): seq<Evidence> {
    if ins.Some? && FilingShownByInsurer(ins.value).Some? then evidence + [FilingShownByInsurer(ins.value).value] else evidence
  }

  function FalseAmong(atts: seq<Attestation>, evidence: seq<Evidence>): seq<Attestation> {
    if atts == [] then [] else (if Convicted(atts[0], evidence) then [atts[0]] else []) + FalseAmong(atts[1..], evidence)
  }

  function FirstRefused(atts: seq<Attestation>, at: int, o: Options): Option<Attestation> {
    if atts == [] then None else if !StandingOf(atts[0].record, at, o).Ok() then Some(atts[0]) else FirstRefused(atts[1..], at, o)
  }

  function FiguresOf(a: Attestation, at: int): Figures
    requires a.record.Some?
  {
    FiguresAt(a.record.value.insurance, at)
  }

  function Lower(a: Figures, b: Figures): Figures { Figures(Min(a.bipd, b.bipd), Min(a.cargo, b.cargo), Min(a.bond, b.bond)) }

  function Lowest(atts: seq<Attestation>, at: int): Figures
    requires atts != [] && forall a :: a in atts ==> a.record.Some?
  {
    if |atts| == 1 then FiguresOf(atts[0], at) else Lower(FiguresOf(atts[0], at), Lowest(atts[1..], at))
  }

  function LiveCheck(atts: seq<Attestation>, presented: Option<InsurerAttestation>, ofRecord: bool, at: int, o: Options): LiveResult
    requires atts != []
  {
    var evidence := Evidence1(atts);
    var ins := Genuine(presented, ofRecord, evidence);
    var insurers := if ins.Some? then InsurerStanding(ins.value, at, o.through) else None;
    var proven := FalseAmong(atts, WithInsurer(evidence, ins));
    var bad := FirstRefused(atts, at, o);
    RefusedIsRefused(atts, at, o);
    if bad.Some? then
      var st := StandingOf(bad.value.record, at, o);
      LiveResult(st.reason, if st.insurance.Some? then Some(st.insurance.value.figures) else None, false, Some(bad.value.registryId), proven)
    else if insurers.Some? then LiveResult(insurers, Some(FiguresOf(atts[0], at)), false, None, proven)
    else
      LiveResult(None, Some(Lowest(atts, at)), forall i :: 0 <= i < |atts| ==> StandingOf(atts[i].record, at, o).brokerAuthority, Some(atts[0].registryId), proven)
  }

  lemma {:induction false} RefusedIsRefused(atts: seq<Attestation>, at: int, o: Options)
    ensures FirstRefused(atts, at, o).None? <==> forall i :: 0 <= i < |atts| ==> StandingOf(atts[i].record, at, o).Ok()
    ensures FirstRefused(atts, at, o).Some? ==> FirstRefused(atts, at, o).value in atts && !StandingOf(FirstRefused(atts, at, o).value.record, at, o).Ok()
  {
    if atts != [] {
      RefusedIsRefused(atts[1..], at, o);
      assert forall i :: 0 < i < |atts| ==> atts[i] == atts[1..][i - 1];
    }
  }

  /** Every registry's word must show good standing, and so must the insurer's own where it counts; nothing else is asked. */
  lemma Unanimity(atts: seq<Attestation>, presented: Option<InsurerAttestation>, ofRecord: bool, at: int, o: Options)
    requires atts != []
    ensures var ins := Genuine(presented, ofRecord, Evidence1(atts));
      LiveCheck(atts, presented, ofRecord, at, o).Ok() <==>
        && (forall i :: 0 <= i < |atts| ==> StandingOf(atts[i].record, at, o).Ok())
        && (ins.Some? ==> InsurerStanding(ins.value, at, o.through).None?)
  {
    RefusedIsRefused(atts, at, o);
  }

  predicate NotAbove(a: Figures, b: Figures) { a.bipd <= b.bipd && a.cargo <= b.cargo && a.bond <= b.bond }

  predicate AllInStanding(atts: seq<Attestation>, at: int, o: Options) { forall a :: a in atts ==> StandingOf(a.record, at, o).Ok() }

  predicate AllBrokers(atts: seq<Attestation>, at: int, o: Options) { forall a :: a in atts ==> StandingOf(a.record, at, o).brokerAuthority }

  predicate AllRecorded(atts: seq<Attestation>) { forall a :: a in atts ==> a.record.Some? }

  lemma StandingHasRecord(atts: seq<Attestation>, at: int, o: Options)
    requires AllInStanding(atts, at, o)
    ensures AllRecorded(atts)
  {
  }

  /** With no insurer's word, good standing is that of every registry, and the figures are the lowest. */
  lemma LiveCheckMeans(atts: seq<Attestation>, at: int, o: Options)
    requires atts != []
    ensures var r := LiveCheck(atts, None, false, at, o);
      && (r.Ok() <==> AllInStanding(atts, at, o))
      && (r.Ok() ==> AllRecorded(atts) && r.figures == Some(Lowest(atts, at)) && r.brokerAuthority == AllBrokers(atts, at, o))
  {
    RefusedIsRefused(atts, at, o);
    if FirstRefused(atts, at, o).None? { StandingHasRecord(atts, at, o); }
  }

  lemma {:induction false} LowestIsLowest(atts: seq<Attestation>, at: int)
    requires atts != [] && AllRecorded(atts)
    ensures forall a :: a in atts ==> NotAbove(Lowest(atts, at), FiguresOf(a, at))
    ensures exists a :: a in atts && FiguresOf(a, at).bipd == Lowest(atts, at).bipd
    ensures exists a :: a in atts && FiguresOf(a, at).cargo == Lowest(atts, at).cargo
    ensures exists a :: a in atts && FiguresOf(a, at).bond == Lowest(atts, at).bond
  {
    assert atts[0] in atts;
    if |atts| > 1 {
      LowestIsLowest(atts[1..], at);
      assert atts == [atts[0]] + atts[1..];
    }
  }

  /** Each figure reported is one that some registry shows and none shows lower. */
  lemma FiguresAreTheLowestShown(atts: seq<Attestation>, at: int, o: Options)
    requires atts != [] && LiveCheck(atts, None, false, at, o).Ok()
    ensures AllRecorded(atts) && LiveCheck(atts, None, false, at, o).figures.Some?
    ensures var g := LiveCheck(atts, None, false, at, o).figures.value;
      && (forall a :: a in atts ==> NotAbove(g, FiguresOf(a, at)))
      && (exists a :: a in atts && FiguresOf(a, at).bipd == g.bipd)
      && (exists a :: a in atts && FiguresOf(a, at).cargo == g.cargo)
      && (exists a :: a in atts && FiguresOf(a, at).bond == g.bond)
  {
    LiveCheckMeans(atts, at, o);
    LowestIsLowest(atts, at);
  }

  lemma LowestFalls(few: seq<Attestation>, many: seq<Attestation>, at: int)
    requires few != [] && many != [] && AllRecorded(many) && forall a :: a in few ==> a in many
    ensures AllRecorded(few) && NotAbove(Lowest(many, at), Lowest(few, at))
  {
    LowestIsLowest(few, at);
    LowestIsLowest(many, at);
  }

  /** Hearing from more registries never turns a refusal into good standing, nor raises a figure, nor grants broker authority. */
  lemma MoreRegistriesNeverHelp(few: seq<Attestation>, many: seq<Attestation>, at: int, o: Options)
    requires few != [] && many != [] && forall a :: a in few ==> a in many
    requires LiveCheck(many, None, false, at, o).Ok()
    ensures var f, m := LiveCheck(few, None, false, at, o), LiveCheck(many, None, false, at, o);
      && f.Ok() && f.figures.Some? && m.figures.Some? && NotAbove(m.figures.value, f.figures.value)
      && (m.brokerAuthority ==> f.brokerAuthority)
  {
    LiveCheckMeans(many, at, o);
    LiveCheckMeans(few, at, o);
    LowestFalls(few, many, at);
  }

  /** The order in which registries are heard, and hearing one twice, make no difference to verdict, figures or broker authority. */
  lemma OrderIsIgnored(here: seq<Attestation>, there: seq<Attestation>, at: int, o: Options)
    requires here != [] && there != [] && forall a :: a in here <==> a in there
    ensures var h, t := LiveCheck(here, None, false, at, o), LiveCheck(there, None, false, at, o);
      h.Ok() == t.Ok() && (h.Ok() ==> h.figures == t.figures && h.brokerAuthority == t.brokerAuthority)
  {
    if LiveCheck(here, None, false, at, o).Ok() { MoreRegistriesNeverHelp(there, here, at, o); }
    if LiveCheck(there, None, false, at, o).Ok() { MoreRegistriesNeverHelp(here, there, at, o); }
  }
}
