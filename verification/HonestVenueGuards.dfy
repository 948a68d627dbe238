/**
 When an honest venue is safe from every accusation: promises lodged with witnesses are ones it gave, polls sign what
 they have just read, promises are judged by receipts no newer than the last poll, and breaches are reported only once
 some witness holds them. Each condition beside the run that fails without it.
 */
module HonestVenueGuards {
  import opened Wrappers
  import opened Chain
  import opened ChainTheorems
  import opened Witness
  import opened WitnessCore
  import opened WitnessTheorems
  import opened GossipTheorems
  import opened HonestVenue

  // ---------------------------------------------------------------- conditions on steps

  /** Some witness already holds this promise broken. */
  ghost predicate Held(sys: Sys, p: Promise) { exists v :: v in sys.nodes && HasBroken(sys.nodes[v].s.broken, p) }

  /** A poll reads head and slice at once and signs what the venue's book is now; a lodging is judged by a receipt no newer than the last poll; a report passes on what some witness holds. */
  ghost predicate Prompt(sys: Sys, step: Step) {
    match step
    case Poll(w, read, a, _) => w in sys.nodes && read == |sys.book| && (a.Served? ==> Snapshot(sys.book, sys.nodes[w].s.lastCosigned, read, a))
    case Watch(w, _, _) => w in sys.nodes && (Latest(sys.nodes[w].s).Some? ==> Latest(sys.nodes[w].s).value.at <= sys.nodes[w].polledAt)
    case Report(_, b) => Held(sys, b.promise)
    case _ => true
  }

  /** The promise lodged, if one is, is one the venue gave. */
  predicate Given(sys: Sys, step: Step) { step.Watch? && step.item.OfPromise? ==> step.item.promise in sys.promised }

  ghost predicate PromptRun(sys: Sys, steps: seq<Step>)
    requires Runs(sys, steps)
    decreases |steps|
  {
    steps == [] || (Prompt(sys, steps[0]) && PromptRun(Next(sys, steps[0]), steps[1..]))
  }

  ghost predicate GivenRun(sys: Sys, steps: seq<Step>)
    requires Runs(sys, steps)
    decreases |steps|
  {
    steps == [] || (Given(sys, steps[0]) && GivenRun(Next(sys, steps[0]), steps[1..]))
  }

  // ---------------------------------------------------------------- what prompt runs keep

  /** Promises due by the last poll are in what it verified; promises held broken are none the venue gave. */
  ghost predicate Fair(sys: Sys, w: string)
    requires w in sys.nodes
  {
    var n := sys.nodes[w];
    && (n.s.lastCosigned.Some? ==> n.polledAt <= sys.now)
    && (forall p :: p in sys.promised && n.s.lastCosigned.Some? && n.polledAt > p.includeBy ==> p.noticeHash in n.s.noticesSeen)
    && (forall p :: HasBroken(n.s.broken, p) ==> p !in sys.promised && p.includeBy < sys.now)
  }

  ghost predicate Honest(sys: Sys) { Upright(sys) && forall w :: w in sys.nodes ==> Fair(sys, w) }

  lemma ReceiptMeansCosigned(sys: Sys, w: string)
    requires Upright(sys) && w in sys.nodes && Latest(sys.nodes[w].s).Some?
    ensures sys.nodes[w].s.lastCosigned.Some?
  {
    assert UprightAt(sys, w);
  }

  lemma NoticedExactlyInView(sys: Sys, w: string, h: string)
    requires Upright(sys) && w in sys.nodes
    ensures 0 <= Height(sys.nodes[w].s) <= |sys.book|
    ensures h in sys.nodes[w].s.noticesSeen <==> OnBook(sys.book[..Height(sys.nodes[w].s)], h)
  {
    assert UprightAt(sys, w);
    NoticedExactlyOnBook(sys.nodes[w].s, sys.book[..Height(sys.nodes[w].s)], h);
  }

  /** In an honest system, a prompt step accuses of nothing the venue gave. */
  lemma PromptStepAccusesOfNothingGiven(sys: Sys, step: Step, w: string, p: Promise)
    requires Honest(sys) && Enabled(sys, step) && Prompt(sys, step) && w in sys.nodes && Accuses(sys, step, w, p)
    ensures p !in sys.promised && p.includeBy < sys.now
  {
    assert Fair(sys, w);
    match step {
      case Poll(_, read, _, _) => assert sys.book[..read] == sys.book;
      case Watch(_, _, _) =>
        ReceiptMeansCosigned(sys, w);
        NoticedExactlyInView(sys, w, p.noticeHash);
      case Report(_, b) =>
        var v :| v in sys.nodes && HasBroken(sys.nodes[v].s.broken, p);
        assert Fair(sys, v);
    }
  }

  lemma CosigningSeesAll(sys: Sys, step: Step)
    requires Upright(sys) && Enabled(sys, step) && step.Poll? && step.a.Served? && step.read == |sys.book|
    ensures var n := Next(sys, step).nodes[step.w];
      || (NoticesAlike(sys.nodes[step.w].s, n.s) && n.polledAt == sys.nodes[step.w].polledAt)
      || (n.polledAt == sys.now && forall p :: p in sys.promised && sys.now > p.includeBy ==> p.noticeHash in n.s.noticesSeen)
  {
    var n := sys.nodes[step.w];
    assert UprightAt(sys, step.w);
    var m :| SliceFrom(sys.book, n.s.lastCosigned, m, step.a);
    PollKnows(n.s, n.me, sys.venue, sys.book, step.read, m, step.a, sys.now, step.checkedAt);
    var (t, o) := Polled(n.s, n.me, step.a, sys.now, step.checkedAt);
    if o.Cosigned? {
      assert sys.book[..Height(t)] == sys.book;
      forall p | p in sys.promised && sys.now > p.includeBy ensures p.noticeHash in t.noticesSeen {
        NoticedExactlyOnBook(t, sys.book, p.noticeHash);
      }
    }
  }

  predicate NoticesAlike(s: State, t: State) { t.lastCosigned == s.lastCosigned && t.noticesSeen == s.noticesSeen }

  lemma AskNoticesNothing(s: State, me: WitnessKey, n: int, at: int)
    ensures NoticesAlike(s, ReceiptedFor(s, me, n, at).0)
  {
  }

  lemma ReportNoticesNothing(s: State, b: Broken)
    ensures NoticesAlike(s, BrokenReceived(s, b))
  {
  }

  lemma PollNoticesNothing(s: State, me: WitnessKey, a: Answer, at: int, checkedAt: int)
    requires !a.Served?
    ensures Polled(s, me, a, at, checkedAt).0 == s && !Polled(s, me, a, at, checkedAt).1.Cosigned?
  {
  }

  lemma ActorNoticesNothing(sys: Sys, step: Step)
    requires Upright(sys) && Enabled(sys, step) && Acts(step) && !(step.Poll? && step.a.Served?)
    ensures NoticesAlike(sys.nodes[step.w].s, Next(sys, step).nodes[step.w].s)
    ensures Next(sys, step).nodes[step.w].polledAt == sys.nodes[step.w].polledAt
  {
    match step {
      case Poll(w, _, a, checkedAt) => PollNoticesNothing(sys.nodes[w].s, sys.nodes[w].me, a, sys.now, checkedAt);
      case Gossip(w, r) => GossipAgrees(sys, w, r);
      case Ask(w, n) => AskNoticesNothing(sys.nodes[w].s, sys.nodes[w].me, n, sys.now);
      case Watch(w, item, checkedAt) => LodgingSaysNothing(sys.nodes[w].s, item, checkedAt);
      case Present(w, proof) => NoProofVerifies(sys, w, proof);
      case Report(w, b) => ReportNoticesNothing(sys.nodes[w].s, b);
    }
  }

  /** Nothing but a poll changes what a witness has noticed. */
  lemma OthersNoticeNothing(sys: Sys, step: Step, w: string)
    requires Upright(sys) && Enabled(sys, step) && w in sys.nodes && !(step.Poll? && step.w == w && step.a.Served?)
    ensures w in Next(sys, step).nodes
    ensures NoticesAlike(sys.nodes[w].s, Next(sys, step).nodes[w].s) && Next(sys, step).nodes[w].polledAt == sys.nodes[w].polledAt
  {
    StepFrame(sys, step);
    if Acts(step) && step.w == w { ActorNoticesNothing(sys, step); }
  }

  lemma StepKeepsNoticed(sys: Sys, step: Step, w: string)
    requires Honest(sys) && Enabled(sys, step) && Prompt(sys, step) && w in sys.nodes
    ensures var after := Next(sys, step); w in after.nodes && var n := after.nodes[w];
      && (n.s.lastCosigned.Some? ==> n.polledAt <= after.now)
      && (forall p :: p in after.promised && n.s.lastCosigned.Some? && n.polledAt > p.includeBy ==> p.noticeHash in n.s.noticesSeen)
  {
    StepFrame(sys, step);
    assert Fair(sys, w);
    if step.Poll? && step.w == w && step.a.Served? {
      CosigningSeesAll(sys, step);
    } else {
      OthersNoticeNothing(sys, step, w);
    }
  }

  lemma StepKeepsFair(sys: Sys, step: Step, w: string)
    requires Honest(sys) && Enabled(sys, step) && Prompt(sys, step) && w in Next(sys, step).nodes
    ensures Fair(Next(sys, step), w)
  {
    StepFrame(sys, step);
    StepKeepsNoticed(sys, step, w);
    var after := Next(sys, step);
    forall p | HasBroken(after.nodes[w].s.broken, p) ensures p !in after.promised && p.includeBy < after.now {
      StepAccuses(sys, step, w, p);
      assert Fair(sys, w);
      if Accuses(sys, step, w, p) { PromptStepAccusesOfNothingGiven(sys, step, w, p); }
    }
  }

  lemma StepKeepsHonest(sys: Sys, step: Step)
    requires Honest(sys) && Enabled(sys, step) && Prompt(sys, step)
    ensures Honest(Next(sys, step))
  {
    StepKeepsUpright(sys, step);
    forall w | w in Next(sys, step).nodes ensures Fair(Next(sys, step), w) { StepKeepsFair(sys, step, w); }
  }

  /** In prompt runs, whatever promise a witness holds broken is one the venue never gave. */
  lemma {:induction false} PromptRunsAccuseOfNothingGiven(sys: Sys, steps: seq<Step>)
    requires Honest(sys) && Runs(sys, steps) && PromptRun(sys, steps)
    ensures Honest(After(sys, steps))
    ensures forall w, p :: w in After(sys, steps).nodes && HasBroken(After(sys, steps).nodes[w].s.broken, p) ==> p !in After(sys, steps).promised
    decreases |steps|
  {
    if steps == [] {
      forall w, p | w in sys.nodes && HasBroken(sys.nodes[w].s.broken, p) ensures p !in sys.promised { assert Fair(sys, w); }
    } else {
      StepKeepsHonest(sys, steps[0]);
      PromptRunsAccuseOfNothingGiven(Next(sys, steps[0]), steps[1..]);
    }
  }

  // ---------------------------------------------------------------- promises the venue gave

  predicate Unaccusing(s: State) {
    s.forks == [] && s.equivocations == [] && s.broken == [] && s.halted.None?
  }

  /** Nobody holds anything against the venue, and all that is watched was promised. */
  ghost predicate Trusting(sys: Sys) {
    forall w :: w in sys.nodes ==> sys.nodes[w].s.forks == [] && sys.nodes[w].s.broken == [] && forall p :: p in sys.nodes[w].s.watching ==> p in sys.promised
  }

  lemma {:induction false} StillWatchingAmong(ps: seq<Promise>, seen: map<string, int>, r: Receipt, now: int)
    ensures forall p :: p in StillWatching(ps, seen, r, now) ==> p in ps
  {
    if ps != [] { StillWatchingAmong(ps[1..], seen, r, now); }
  }

  lemma CheckWatchesNoMore(s: State, r: Receipt, now: int)
    ensures forall p :: p in CheckedWatch(s, r, now).watching ==> p in s.watching
  {
    StillWatchingAmong(s.watching, s.noticesSeen, r, now);
  }

  predicate WatchesNoMore(s: State, t: State) { forall p :: p in t.watching ==> p in s.watching }

  lemma PollWatchesNoMore(s: State, me: WitnessKey, a: Answer, at: int, checkedAt: int)
    ensures WatchesNoMore(s, Polled(s, me, a, at, checkedAt).0)
  {
    if Polled(s, me, a, at, checkedAt).1.Cosigned? {
      var c := Cosignature(s, me, a, at, checkedAt);
      CheckWatchesNoMore(c, Polled(s, me, a, at, checkedAt).1.receipt, checkedAt);
    }
  }

  lemma LodgingWatches(s: State, item: Item, checkedAt: int, p: Promise)
    requires p in Watched(s, item, checkedAt).watching
    ensures p in s.watching || item == OfPromise(p)
  {
    WatchedIs(s, item, checkedAt);
    LodgedWatches(s, item, p);
    if Latest(s).Some? { CheckWatchesNoMore(Lodged(s, item), Latest(s).value, checkedAt); }
  }

  lemma WatchedIs(s: State, item: Item, checkedAt: int)
    ensures Watched(s, item, checkedAt) == if Latest(s).Some? then CheckedWatch(Lodged(s, item), Latest(s).value, checkedAt) else Lodged(s, item)
  {
  }

  lemma LodgedWatches(s: State, item: Item, p: Promise)
    ensures p in Lodged(s, item).watching ==> p in s.watching || item == OfPromise(p)
  {
  }

  lemma ActorWatches(sys: Sys, step: Step, p: Promise)
    requires Upright(sys) && Enabled(sys, step) && Acts(step) && p in Next(sys, step).nodes[step.w].s.watching
    ensures p in sys.nodes[step.w].s.watching || (step.Watch? && step.item == OfPromise(p))
  {
    var n := sys.nodes[step.w];
    match step {
      case Poll(_, _, a, checkedAt) => PollWatchesNoMore(n.s, n.me, a, sys.now, checkedAt);
      case Gossip(w, r) => GossipAgrees(sys, w, r);
      case Ask(_, _) =>
      case Watch(_, item, checkedAt) => LodgingWatches(n.s, item, checkedAt, p);
      case Present(w, proof) => NoProofVerifies(sys, w, proof);
      case Report(_, _) =>
    }
  }

  /** A step watches nothing new but what is lodged. */
  lemma StepWatches(sys: Sys, step: Step, w: string, p: Promise)
    requires Upright(sys) && Enabled(sys, step) && w in sys.nodes && w in Next(sys, step).nodes && p in Next(sys, step).nodes[w].s.watching
    ensures p in sys.nodes[w].s.watching || (step.Watch? && step.item == OfPromise(p))
  {
    StepFrame(sys, step);
    if Acts(step) && step.w == w { ActorWatches(sys, step, p); }
  }

  lemma NothingHeldNothingBroken(bs: seq<Broken>)
    ensures bs == [] <==> forall p :: !HasBroken(bs, p)
  {
    if bs != [] { assert bs[0] in bs && HasBroken(bs, bs[0].promise); }
  }

  lemma TrustingHoldsNothing(sys: Sys, p: Promise)
    requires Trusting(sys)
    ensures !Held(sys, p)
  {
    forall v | v in sys.nodes ensures !HasBroken(sys.nodes[v].s.broken, p) { NothingHeldNothingBroken(sys.nodes[v].s.broken); }
  }

  /** With nothing held and every promise lodged given, a prompt step accuses of nothing. */
  lemma GivenStepAccusesOfNothing(sys: Sys, step: Step, w: string, p: Promise)
    requires Honest(sys) && Trusting(sys) && Enabled(sys, step) && Prompt(sys, step) && Given(sys, step) && w in sys.nodes
    ensures !Accuses(sys, step, w, p)
  {
    TrustingHoldsNothing(sys, p);
    if Accuses(sys, step, w, p) { PromptStepAccusesOfNothingGiven(sys, step, w, p); }
  }

  lemma StepKeepsTrusting(sys: Sys, step: Step)
    requires Honest(sys) && Trusting(sys) && Enabled(sys, step) && Prompt(sys, step) && Given(sys, step)
    ensures Trusting(Next(sys, step))
  {
    StepFrame(sys, step);
    var after := Next(sys, step);
    forall w | w in after.nodes ensures after.nodes[w].s.broken == [] {
      forall p ensures !HasBroken(after.nodes[w].s.broken, p) {
        StepAccuses(sys, step, w, p);
        GivenStepAccusesOfNothing(sys, step, w, p);
        NothingHeldNothingBroken(sys.nodes[w].s.broken);
      }
      NothingHeldNothingBroken(after.nodes[w].s.broken);
    }
    forall w | w in after.nodes ensures after.nodes[w].s.forks == [] { StepForks(sys, step, w); }
    forall w, p | w in after.nodes && p in after.nodes[w].s.watching ensures p in after.promised { StepWatches(sys, step, w, p); }
  }

  lemma {:induction false} GivenRunsStayTrusting(sys: Sys, steps: seq<Step>)
    requires Honest(sys) && Trusting(sys) && Runs(sys, steps) && PromptRun(sys, steps) && GivenRun(sys, steps)
    ensures Trusting(After(sys, steps))
    decreases |steps|
  {
    if steps != [] {
      StepKeepsHonest(sys, steps[0]);
      StepKeepsTrusting(sys, steps[0]);
      GivenRunsStayTrusting(Next(sys, steps[0]), steps[1..]);
    }
  }

  /** So if every promise lodged is one the venue gave, prompt runs end with no witness holding anything against it. */
  lemma GivenPromisesAreNeverHeldBroken(sys: Sys, steps: seq<Step>)
    requires Honest(sys) && Trusting(sys) && Runs(sys, steps) && PromptRun(sys, steps) && GivenRun(sys, steps)
    ensures forall w :: w in After(sys, steps).nodes ==> Unaccusing(After(sys, steps).nodes[w].s)
  {
    GivenRunsStayTrusting(sys, steps);
    HonestVenueIsNeverAccused(sys, steps);
  }

  /** A founded ledger with any set of new witnesses that know one another is such a system. */
  lemma FoundedSystemIsHonest(sys: Sys, ts: int, genesis: Payload, key: KeyPair)
    requires sys.book == [Seal(0, ts, GENESIS, genesis, Zero, key)] && sys.promised == {}
    requires forall w :: w in sys.nodes ==> sys.nodes[w].s == Empty && sys.nodes[w].me.witnessId == w
    requires forall w :: w in sys.nodes ==> PeersKnown(sys, sys.nodes[w].peers)
    ensures Honest(sys) && Trusting(sys)
  {
    FoundedSystemIsUpright(sys, ts, genesis, key);
  }
}
