/**
 How long an insurer's word alone assures coverage (src/protocol/registry.ts, "the origin's word",
 coverageAssuredThrough and insurerStanding), against every notice the insurer files before or after.
 */
module Assurance {
  import opened Wrappers
  import opened Registry
  import opened UpstreamHistory
  import opened Standing

  /** The statute as the assured window counts it: a notice takes effect the notice period after the moment it is filed, or later. */
  ghost predicate GivesNotice(ns: seq<Notice>, noticeDays: int) {
    forall i :: 0 <= i < |ns| ==> ns[i].at + noticeDays * MS_PER_DAY <= Midnight(ns[i].effective)
  }

  /** The statute counted in days: from the day of filing. */
  ghost predicate GivesDays(ns: seq<Notice>, noticeDays: int) {
    forall i :: 0 <= i < |ns| ==> DayOf(ns[i].at) + noticeDays <= ns[i].effective
  }

  /** By its own notices, filed before `t` or after, the policy is in force at `t`. */
  ghost predicate Uncancelled(ns: seq<Notice>, t: int) {
    forall i :: 0 <= i < |ns| ==> t < Midnight(ns[i].effective)
  }

  /**
   What no set of mirrors can take away: an insurer that discloses its latest notice and gives notice as the statute
   asks has, before the assured moment, no cancellation in effect, whatever it files later.
   */
  lemma WordAssuresCoverage(ns: seq<Notice>, a: InsurerAttestation, t: int)
    requires OrderlyNotices(ns) && GivesNotice(ns, a.noticeDays) && a.cancellation == ToDisclose(ns, a.asOf)
    requires t < AssuredThrough(a)
    ensures Uncancelled(ns, t)
  {
    forall i | 0 <= i < |ns| ensures t < Midnight(ns[i].effective) {
      if ns[i].at <= a.asOf { DisclosureCovers(ns, a.asOf, i); }
    }
  }

  /** The insurer's own standing never refuses inside the assured window, once the policy has begun. */
  lemma StandsWhileAssured(a: InsurerAttestation, at: int, through: int)
    requires Midnight(a.effectiveDate) <= at <= through < AssuredThrough(a)
    ensures InsurerStanding(a, at, Some(through)).None?
  {
  }

  /** Counted in days, a notice filed later on the day the word was signed can take effect inside the assured window: the window ends at an hour, the cancellation at midnight. */
  lemma DayCountedNoticeCutsIn(a: InsurerAttestation, signedDay: int)
    requires a.cancellation.None? && a.asOf == Midnight(signedDay) + 1 && a.noticeDays >= 0
    ensures var ns := [Notice(Midnight(signedDay) + 2, signedDay, signedDay + a.noticeDays)];
      && OrderlyNotices(ns) && GivesDays(ns, a.noticeDays) && a.cancellation == ToDisclose(ns, a.asOf)
      && Midnight(signedDay + a.noticeDays) < AssuredThrough(a)
      && !Uncancelled(ns, Midnight(signedDay + a.noticeDays))
  {
    var n := Notice(Midnight(signedDay) + 2, signedDay, signedDay + a.noticeDays);
    assert [n][..0] == [];
    assert DayOf(n.at) == signedDay;
    assert [n][0] == n;
  }

  /** The insurer gives notice by days, and this word discloses what it has filed. */
  ghost predicate Keeps(ns: seq<Notice>, a: InsurerAttestation) {
    OrderlyNotices(ns) && GivesDays(ns, a.noticeDays) && a.cancellation == ToDisclose(ns, a.asOf)
  }

  /** The first midnight a notice filed after the word can take effect at, or the disclosed cancellation if earlier. */
  function DayAssured(a: InsurerAttestation): int {
    var statutory := Midnight(DayOf(a.asOf + 1) + a.noticeDays);
    if a.cancellation.None? then statutory else Min(Midnight(a.cancellation.value.effectiveDate), statutory)
  }

  lemma AssuredByDays(ns: seq<Notice>, a: InsurerAttestation, t: int)
    requires Keeps(ns, a) && t < DayAssured(a)
    ensures Uncancelled(ns, t)
  {
    forall i | 0 <= i < |ns| ensures t < Midnight(ns[i].effective) {
      if ns[i].at <= a.asOf {
        DisclosureCovers(ns, a.asOf, i);
      } else {
        assert DayOf(a.asOf + 1) <= DayOf(ns[i].at);
      }
    }
  }

  /** A notice filed in the next millisecond that takes effect as soon as the days allow. */
  function NextNotice(a: InsurerAttestation): Notice {
    Notice(a.asOf + 1, DayOf(a.asOf + 1), DayOf(a.asOf + 1) + a.noticeDays)
  }

  /** The notice disclosed, filed long enough before. */
  function DisclosedNotice(a: InsurerAttestation): Notice
    requires a.cancellation.Some?
  {
    var c := a.cancellation.value;
    Notice(Midnight(Min(DayOf(a.asOf), Min(c.filedDate, c.effectiveDate - a.noticeDays))), c.filedDate, c.effectiveDate)
  }

  lemma DisclosedIsKept(a: InsurerAttestation)
    requires a.cancellation.Some?
    ensures Keeps([DisclosedNotice(a)], a)
  {
    assert [DisclosedNotice(a)][..0] == [];
  }

  lemma NextIsKept(a: InsurerAttestation)
    requires a.cancellation.Some? ==> NextNotice(a).effective <= a.cancellation.value.effectiveDate
    ensures a.cancellation.None? ==> Keeps([NextNotice(a)], a)
    ensures a.cancellation.Some? ==> Keeps([DisclosedNotice(a), NextNotice(a)], a)
  {
    if a.cancellation.None? {
      assert [NextNotice(a)][..0] == [];
    } else {
      DisclosedIsKept(a);
      assert [DisclosedNotice(a), NextNotice(a)][..1] == [DisclosedNotice(a)];
    }
  }

  lemma NotAssuredByDays(a: InsurerAttestation, t: int) returns (ns: seq<Notice>)
    requires t >= DayAssured(a)
    ensures Keeps(ns, a) && !Uncancelled(ns, t)
  {
    if a.cancellation.Some? && Midnight(a.cancellation.value.effectiveDate) <= t {
      DisclosedIsKept(a);
      ns := [DisclosedNotice(a)];
      assert ns[0].effective == a.cancellation.value.effectiveDate;
    } else {
      NextIsKept(a);
      ns := if a.cancellation.None? then [NextNotice(a)] else [DisclosedNotice(a), NextNotice(a)];
      assert ns[|ns| - 1] == NextNotice(a);
    }
  }

  /** With notice counted in days, a word assures coverage at `t`, whatever the insurer has filed or will file, exactly before `DayAssured`. */
  lemma DayCountedNoticeAssuresExactly(a: InsurerAttestation, t: int)
    ensures (forall ns :: Keeps(ns, a) ==> Uncancelled(ns, t)) <==> t < DayAssured(a)
  {
    if t < DayAssured(a) {
      forall ns | Keeps(ns, a) ensures Uncancelled(ns, t) { AssuredByDays(ns, a, t); }
    } else {
      var ns := NotAssuredByDays(a, t);
    }
  }

  /** Coverage all through the window the code computes. */
  ghost predicate WindowHolds(a: InsurerAttestation) {
    forall ns, t :: Keeps(ns, a) && t < AssuredThrough(a) ==> Uncancelled(ns, t)
  }

  /** So the window the code computes holds exactly for words signed at midnight, or in the last millisecond of a day, or disclosing a cancellation early enough. */
  lemma WindowHoldsExactlyWhen(a: InsurerAttestation)
    ensures WindowHolds(a) <==>
      || a.asOf == Midnight(DayOf(a.asOf)) || a.asOf + 1 == Midnight(DayOf(a.asOf) + 1)
      || (a.cancellation.Some? && a.cancellation.value.effectiveDate <= DayOf(a.asOf + 1) + a.noticeDays)
  {
    if AssuredThrough(a) <= DayAssured(a) {
      forall ns, t | Keeps(ns, a) && t < AssuredThrough(a) ensures Uncancelled(ns, t) { AssuredByDays(ns, a, t); }
    } else {
      var ns := NotAssuredByDays(a, DayAssured(a));
    }
    WindowsCompare(a);
  }

  lemma WindowsCompare(a: InsurerAttestation)
    ensures AssuredThrough(a) <= DayAssured(a) <==>
      || a.asOf == Midnight(DayOf(a.asOf)) || a.asOf + 1 == Midnight(DayOf(a.asOf) + 1)
      || (a.cancellation.Some? && a.cancellation.value.effectiveDate <= DayOf(a.asOf + 1) + a.noticeDays)
  {
    var d := DayOf(a.asOf);
    assert Midnight(d) <= a.asOf < Midnight(d + 1);
    assert DayOf(a.asOf + 1) == if a.asOf + 1 == Midnight(d + 1) then d + 1 else d;
  }
}
