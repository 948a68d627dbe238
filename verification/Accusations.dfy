/**
 The runs that make witnesses hold an honest venue's promise broken: one for each condition of HonestVenueGuards, in
 which only that condition fails.
 */
module Accusations {
  import opened Wrappers
  import RootLog
  import opened Chain
  import opened ChainTheorems
  import opened Witness
  import opened WitnessCore
  import opened WitnessTheorems
  import opened GossipTheorems
  import opened HonestVenue
  import opened HonestVenueGuards

  lemma OneStep(sys: Sys, step: Step)
    requires Enabled(sys, step)
    ensures Runs(sys, [step]) && After(sys, [step]) == Next(sys, step)
    ensures PromptRun(sys, [step]) <==> Prompt(sys, step)
    ensures GivenRun(sys, [step]) <==> Given(sys, step)
  {
    assert [step][1..] == [];
    assert Runs(Next(sys, step), []);
    assert After(Next(sys, step), []) == Next(sys, step);
  }

  lemma OneStepMore(sys: Sys, step: Step, rest: seq<Step>)
    requires Enabled(sys, step) && Runs(Next(sys, step), rest)
    ensures Runs(sys, [step] + rest) && After(sys, [step] + rest) == After(Next(sys, step), rest)
    ensures PromptRun(sys, [step] + rest) <==> Prompt(sys, step) && PromptRun(Next(sys, step), rest)
    ensures GivenRun(sys, [step] + rest) <==> Given(sys, step) && GivenRun(Next(sys, step), rest)
  {
    assert ([step] + rest)[1..] == rest;
  }

  lemma TwoSteps(sys: Sys, a: Step, b: Step)
    requires Enabled(sys, a) && Enabled(Next(sys, a), b)
    ensures Runs(sys, [a, b]) && After(sys, [a, b]) == Next(Next(sys, a), b)
    ensures PromptRun(sys, [a, b]) <==> Prompt(sys, a) && Prompt(Next(sys, a), b)
    ensures GivenRun(sys, [a, b]) <==> Given(sys, a) && Given(Next(sys, a), b)
  {
    OneStep(Next(sys, a), b);
    OneStepMore(sys, a, [b]);
    assert [a] + [b] == [a, b];
  }

  lemma OnLongerBook(book: seq<Entry>, n: nat, h: string)
    requires n <= |book| && OnBook(book[..n], h)
    ensures OnBook(book, h)
  {
    var i :| 0 <= i < n && Noted(book[..n][i]) && book[..n][i].payload.noticeHash.value == h;
    assert book[i] == book[..n][i];
  }

  // ---------------------------------------------------------------- promises the venue never gave

  /**
   Nothing checks who signed a promise lodged. One the venue never gave, for a notice not on its book, with a deadline
   before the latest receipt, is held broken at once, although the receipt is no newer than the last poll.
   */
  lemma ForgedPromiseAccusesAtLodging(sys: Sys, w: string, p: Promise, checkedAt: int)
    requires Honest(sys) && w in sys.nodes && !OnBook(sys.book, p.noticeHash) && !Watches(sys.nodes[w].s.watching, p.noticeHash)
    requires var n := sys.nodes[w]; Latest(n.s).Some? && p.includeBy < Latest(n.s).value.at <= n.polledAt && p.includeBy < checkedAt
    ensures var step := Watch(w, OfPromise(p), checkedAt);
      && Enabled(sys, step) && Prompt(sys, step) && p !in sys.promised
      && w in Next(sys, step).nodes && HasBroken(Next(sys, step).nodes[w].s.broken, p)
  {
    var step := Watch(w, OfPromise(p), checkedAt);
    NotOnView(sys, w, p.noticeHash);
    assert p in Lodged(sys.nodes[w].s, OfPromise(p)).watching;
    assert Accuses(sys, step, w, p);
    StepAccuses(sys, step, w, p);
    PromptStepAccusesOfNothingGiven(sys, step, w, p);
  }

  lemma NotOnView(sys: Sys, w: string, h: string)
    requires Upright(sys) && w in sys.nodes && !OnBook(sys.book, h)
    ensures 0 <= Height(sys.nodes[w].s) <= |sys.book| && !OnBook(sys.book[..Height(sys.nodes[w].s)], h)
  {
    assert UprightAt(sys, w);
    if OnBook(sys.book[..Height(sys.nodes[w].s)], h) { OnLongerBook(sys.book, Height(sys.nodes[w].s), h); }
  }

  /** So is a promise the venue did give and still has time to keep, once its deadline is forged. */
  lemma ForgedDeadlineAccuses(sys: Sys, w: string, p: Promise, deadline: int, checkedAt: int)
    requires Honest(sys) && w in sys.nodes && p in sys.promised && p.includeBy >= sys.now
    requires !OnBook(sys.book, p.noticeHash) && !Watches(sys.nodes[w].s.watching, p.noticeHash)
    requires var n := sys.nodes[w]; Latest(n.s).Some? && deadline < Latest(n.s).value.at <= n.polledAt && deadline < checkedAt
    ensures var step := Watch(w, OfPromise(p.(includeBy := deadline)), checkedAt);
      && Enabled(sys, step) && Prompt(sys, step)
      && w in Next(sys, step).nodes && HasBroken(Next(sys, step).nodes[w].s.broken, p.(includeBy := deadline))
  {
    ForgedPromiseAccusesAtLodging(sys, w, p.(includeBy := deadline), checkedAt);
  }

  /** Lodged while no receipt is past its deadline, a forged promise waits, and is held broken at the next poll that finds the book has grown. */
  lemma ForgedPromiseAccusesAtAPoll(sys: Sys, w: string, p: Promise, lodgedAt: int, a: Answer, checkedAt: int)
    requires Honest(sys) && w in sys.nodes && !OnBook(sys.book, p.noticeHash) && p.includeBy < sys.now && p.includeBy < checkedAt
    requires var n := sys.nodes[w];
      && n.s.halted.None? && n.s.watching == [] && (Latest(n.s).Some? ==> Latest(n.s).value.at <= p.includeBy && Latest(n.s).value.at <= n.polledAt)
      && Height(n.s) < |sys.book| && ServedFrom(sys.book, n.s.lastCosigned, a) && a.accepted && a.venueId == sys.venue
    ensures var lodging, poll := Watch(w, OfPromise(p), lodgedAt), Poll(w, |sys.book|, a, checkedAt);
      && p !in sys.promised
      && Enabled(sys, lodging) && Runs(sys, [lodging, poll]) && PromptRun(sys, [lodging, poll])
      && w in Next(sys, lodging).nodes && Next(sys, lodging).nodes[w].s.broken == []
      && w in After(sys, [lodging, poll]).nodes && HasBroken(After(sys, [lodging, poll]).nodes[w].s.broken, p)
  {
    var lodging, poll := Watch(w, OfPromise(p), lodgedAt), Poll(w, |sys.book|, a, checkedAt);
    var lodged := Next(sys, lodging);
    NotOnView(sys, w, p.noticeHash);
    NoticedExactlyInView(sys, w, p.noticeHash);
    WaitingPromise(sys, w, p, lodgedAt);
    StepKeepsUpright(sys, lodging);
    assert sys.book[..|sys.book|] == sys.book;
    ServedIsSnapshot(sys.book, sys.nodes[w].s.lastCosigned, |sys.book|, a);
    PollAccusesOfWatched(lodged, w, |sys.book|, a, checkedAt, p);
    TwoSteps(sys, lodging, poll);
  }

  lemma ServedIsSnapshot(book: seq<Entry>, last: Option<Head>, read: nat, a: Answer)
    requires 0 < read <= |book| && ServedFrom(book[..read], last, a)
    ensures HeadFrom(book, read, a) && Snapshot(book, last, read, a)
  {
  }

  /** A poll that finds the read book longer, and a watched promise off it and past its time, holds it broken. */
  lemma PollAccusesOfWatched(sys: Sys, w: string, read: nat, a: Answer, checkedAt: int, p: Promise)
    requires Upright(sys) && w in sys.nodes && sys.nodes[w].s.halted.None? && p in sys.nodes[w].s.watching
    requires Height(sys.nodes[w].s) < read <= |sys.book| && ServedFrom(sys.book[..read], sys.nodes[w].s.lastCosigned, a)
    requires a.accepted && a.venueId == sys.venue && Missed(sys.book[..read], p, sys.now, checkedAt)
    ensures var poll := Poll(w, read, a, checkedAt);
      Enabled(sys, poll) && w in Next(sys, poll).nodes && HasBroken(Next(sys, poll).nodes[w].s.broken, p)
  {
    var poll := Poll(w, read, a, checkedAt);
    ServedIsSnapshot(sys.book, sys.nodes[w].s.lastCosigned, read, a);
    assert Enabled(sys, poll) && Accuses(sys, poll, w, p);
    StepAccuses(sys, poll, w, p);
  }

  lemma WaitingPromise(sys: Sys, w: string, p: Promise, lodgedAt: int)
    requires Upright(sys) && w in sys.nodes
    requires var n := sys.nodes[w];
      n.s.halted.None? && n.s.watching == [] && (Latest(n.s).Some? ==> Latest(n.s).value.at <= p.includeBy && p.noticeHash !in n.s.noticesSeen)
    ensures var n, m := sys.nodes[w], Next(sys, Watch(w, OfPromise(p), lodgedAt)).nodes[w];
      && m.s.broken == [] && m.s.halted.None? && m.s.watching == [p]
      && m.s.lastCosigned == n.s.lastCosigned && m.polledAt == n.polledAt && m.me == n.me
  {
    assert UprightAt(sys, w);
    var s := sys.nodes[w].s;
    WatchedIs(s, OfPromise(p), lodgedAt);
    if Latest(s).Some? { CheckingOne(Lodged(s, OfPromise(p)), p, Latest(s).value, lodgedAt); }
  }

  lemma CheckingOne(s: State, p: Promise, r: Receipt, now: int)
    requires s.watching == [p] && s.broken == [] && s.halted.None? && r.at <= p.includeBy && p.noticeHash !in s.noticesSeen
    ensures var t := CheckedWatch(s, r, now); t.watching == [p] && t.broken == [] && t.halted.None? && t.lastCosigned == s.lastCosigned
  {
    assert [p][1..] == [];
    assert StillWatching([p], s.noticesSeen, r, now) == [p] + StillWatching([], s.noticesSeen, r, now) == [p];
    assert FirstBroken([p], s.noticesSeen, r, now) == [] + FirstBroken([], s.noticesSeen, r, now) == [];
  }

  // ---------------------------------------------------------------- reports taken at their word

  /** A reported breach is recorded without a look at the promise or the receipt it names, and halts the witness. */
  lemma UnwarrantedReportAccuses(sys: Sys, w: string, b: Broken)
    requires Upright(sys) && w in sys.nodes && sys.nodes[w].s.broken == []
    ensures Enabled(sys, Report(w, b)) && w in Next(sys, Report(w, b)).nodes
    ensures var s := Next(sys, Report(w, b)).nodes[w].s; s.broken == [b] && s.halted.Some?
  {
  }

  // ---------------------------------------------------------------- head and slice of two moments

  /** The head is read, the venue appends, and the slice is read: the witness records a fork of the one book there is. */
  lemma TornReadAccuses(sys: Sys, w: string, read: nat, m: nat, a: Answer, checkedAt: int)
    requires Upright(sys) && w in sys.nodes && sys.nodes[w].s.halted.None? && Height(sys.nodes[w].s) < read
    requires HeadFrom(sys.book, read, a) && SliceFrom(sys.book, sys.nodes[w].s.lastCosigned, m, a) && a.venueId == sys.venue
    ensures var poll := Poll(w, read, a, checkedAt);
      && Enabled(sys, poll) && w in Next(sys, poll).nodes
      && |Next(sys, poll).nodes[w].s.forks| == |sys.nodes[w].s.forks| + if m != read then 1 else 0
  {
    assert UprightAt(sys, w);
    SlicesDiffer(sys.book, sys.nodes[w].s.lastCosigned, read, m, a);
    StepForks(sys, Poll(w, read, a, checkedAt), w);
  }

  // ---------------------------------------------------------------- a peer that signs what it likes

  /** A pinned peer that signs a false hash convicts an honest venue exactly at positions the witness has verified; the proof stands for whoever pins both. */
  lemma ColludingPeerConvictsExactlyWhen(sys: Sys, w: string, peer: WitnessKey, r: Receipt)
    requires Upright(sys) && w in sys.nodes && Introduced(sys.nodes[w].peers, peer)
    requires r.witnessId == peer.witnessId && r.signedBy == Some(peer.x) && r.venueId == sys.venue
    ensures var n := sys.nodes[w];
      var (t, o) := Gossiped(n.s, n.me, n.peers, r, sys.now);
      && Height(n.s) <= |sys.book|
      && (o.Detected? <==> 0 <= r.seqNo < Height(n.s) && r.hash != sys.book[r.seqNo].hash)
      && (o.Detected? ==> t.halted.Some? && forall keys :: Introduced(keys, n.me) && Introduced(keys, peer) ==> VerifyProof(o.proof, keys))
  {
    assert UprightAt(sys, w);
    var n := sys.nodes[w];
    GossipedDetectsDifference(n.s, n.me, sys.venue, sys.book[..Height(n.s)], n.peers, peer, r, sys.now);
  }

  // ---------------------------------------------------------------- judged by a receipt newer than the last poll

  /** Only a receipt newer than the last poll makes a lodging accuse of a promise the venue gave. */
  lemma LodgingAccusesOnlyByAYoungReceipt(sys: Sys, w: string, item: Item, checkedAt: int, p: Promise)
    requires Honest(sys) && w in sys.nodes && p in sys.promised && Accuses(sys, Watch(w, item, checkedAt), w, p)
    ensures Latest(sys.nodes[w].s).Some? && Latest(sys.nodes[w].s).value.at > sys.nodes[w].polledAt
  {
    if Prompt(sys, Watch(w, item, checkedAt)) { PromptStepAccusesOfNothingGiven(sys, Watch(w, item, checkedAt), w, p); }
  }

  /**
   The promise is the venue's own, due, and on the book. The witness has not polled since; asked for an old position it
   has no receipt for, it signs a fresh one; the promise is then lodged, judged by that receipt, and held broken.
   */
  lemma LodgingAfterReceiptOnDemandAccuses(sys: Sys, w: string, p: Promise, n: nat, checkedAt: int)
    requires Honest(sys) && w in sys.nodes && sys.venue != "" && p in sys.promised
    requires sys.now > p.includeBy && checkedAt > p.includeBy
    requires n < Height(sys.nodes[w].s) && n < |sys.book|
    requires ReceiptMatching(sys.nodes[w].s.receipts, n, sys.book[n].hash).None?
    requires p.noticeHash !in sys.nodes[w].s.noticesSeen && !Watches(sys.nodes[w].s.watching, p.noticeHash)
    ensures OnBook(sys.book, p.noticeHash)
    ensures var ask, lodging := Ask(w, n), Watch(w, OfPromise(p), checkedAt);
      && Runs(sys, [ask, lodging]) && GivenRun(sys, [ask, lodging]) && Prompt(sys, ask)
      && w in After(sys, [ask, lodging]).nodes && HasBroken(After(sys, [ask, lodging]).nodes[w].s.broken, p)
  {
    var ask, lodging := Ask(w, n), Watch(w, OfPromise(p), checkedAt);
    StepKeepsHonest(sys, ask);
    var asked := Next(sys, ask);
    FreshReceipt(sys, w, n);
    NoticedExactlyInView(asked, w, p.noticeHash);
    assert p in Lodged(asked.nodes[w].s, OfPromise(p)).watching;
    assert Accuses(asked, lodging, w, p);
    StepAccuses(asked, lodging, w, p);
    TwoSteps(sys, ask, lodging);
  }

  lemma FreshReceipt(sys: Sys, w: string, n: nat)
    requires Upright(sys) && w in sys.nodes && sys.venue != "" && n < Height(sys.nodes[w].s) && n < |sys.book|
    requires ReceiptMatching(sys.nodes[w].s.receipts, n, sys.book[n].hash).None?
    ensures var s, t := sys.nodes[w].s, Next(sys, Ask(w, n)).nodes[w].s;
      Latest(t).Some? && Latest(t).value.at == sys.now && t.noticesSeen == s.noticesSeen && t.watching == s.watching
  {
    assert UprightAt(sys, w);
    var node := sys.nodes[w];
    SignsAfresh(node.s, node.me, sys.venue, sys.book[..Height(node.s)], n, sys.now);
  }

  lemma SignsAfresh(s: State, me: WitnessKey, venue: string, view: seq<Entry>, n: nat, now: int)
    requires Witnesses(s, me, venue, view) && venue != "" && n < |view| && ReceiptMatching(s.receipts, n, view[n].hash).None?
    ensures var t := ReceiptedFor(s, me, n, now).0;
      Latest(t).Some? && Latest(t).value.at == now && t.noticesSeen == s.noticesSeen && t.watching == s.watching
  {
    assert s.receipts[0] in s.receipts;
  }

  // ---------------------------------------------------------------- read, then signed

  lemma {:induction false} BookOnlyGrows(sys: Sys, steps: seq<Step>)
    requires Upright(sys) && Runs(sys, steps)
    ensures sys.book <= After(sys, steps).book && sys.promised <= After(sys, steps).promised && After(sys, steps).venue == sys.venue
    decreases |steps|
  {
    if steps != [] {
      StepFrame(sys, steps[0]);
      StepKeepsUpright(sys, steps[0]);
      BookOnlyGrows(Next(sys, steps[0]), steps[1..]);
    }
  }

  /**
   The book is read, the venue goes on, in time for its promise, and only then is the receipt signed: the witness
   holds broken a promise whose entry is on the ledger.
   */
  lemma PollStraddlingTheDeadlineAccuses(sys: Sys, steps: seq<Step>, w: string, a: Answer, p: Promise)
    requires Upright(sys) && Runs(sys, steps) && p in sys.promised
    requires w in sys.nodes && w in After(sys, steps).nodes && After(sys, steps).nodes[w] == sys.nodes[w] && sys.nodes[w].s.halted.None?
    requires ServedFrom(sys.book, sys.nodes[w].s.lastCosigned, a) && a.accepted && a.venueId == sys.venue && |sys.book| > Height(sys.nodes[w].s)
    requires p in sys.nodes[w].s.watching && !OnBook(sys.book, p.noticeHash) && After(sys, steps).now > p.includeBy
    ensures var later := After(sys, steps);
      var poll := Poll(w, |sys.book|, a, later.now);
      && OnBook(later.book, p.noticeHash)
      && Enabled(later, poll) && w in Next(later, poll).nodes && HasBroken(Next(later, poll).nodes[w].s.broken, p)
  {
    var later := After(sys, steps);
    EveryRunStaysUpright(sys, steps);
    BookOnlyGrows(sys, steps);
    LatePollAccuses(later, sys.book, w, a, p);
  }

  lemma LatePollAccuses(later: Sys, read: seq<Entry>, w: string, a: Answer, p: Promise)
    requires Upright(later) && p in later.promised && read <= later.book && w in later.nodes && later.nodes[w].s.halted.None?
    requires ServedFrom(read, later.nodes[w].s.lastCosigned, a) && a.accepted && a.venueId == later.venue && |read| > Height(later.nodes[w].s)
    requires p in later.nodes[w].s.watching && !OnBook(read, p.noticeHash) && later.now > p.includeBy
    ensures var poll := Poll(w, |read|, a, later.now);
      && OnBook(later.book, p.noticeHash)
      && Enabled(later, poll) && w in Next(later, poll).nodes && HasBroken(Next(later, poll).nodes[w].s.broken, p)
  {
    assert later.book[..|read|] == read;
    PollAccusesOfWatched(later, w, |read|, a, later.now, p);
  }

  // ---------------------------------------------------------------- they all happen

  function Plain(noticeHash: Option<string>): Payload { Payload(noticeHash, None, None, None, None, None, "") }

  const Key := KeyPair("venue", RootLog.Sha("venue"))

  function Note(noticeHash: string): Step { AppendEntry(COMMITMENT, Plain(Some(noticeHash)), 0, Key) }

  function Founded(me: WitnessKey): Sys {
    Sys("v", [Seal(0, 0, GENESIS, Plain(None), Zero, Key)], 0, {}, map[me.witnessId := Node(me, [], Empty, 0)])
  }

  lemma FoundedIsHonest(me: WitnessKey)
    ensures Honest(Founded(me)) && Trusting(Founded(me))
  {
    FoundedSystemIsHonest(Founded(me), 0, Plain(None), Key);
  }

  lemma BookIsServed(book: seq<Entry>, venue: string)
    requires Book(book) && book != []
    ensures ServedFrom(book, None, Served(Head(|book| - 1, HeadHash(book), 0), venue, book, true))
  {
    CutAt(book, 0, 0);
    assert From(book, 0) == book[0..] == book;
  }

  function WholeBook(sys: Sys): Answer { Served(Head(|sys.book| - 1, HeadHash(sys.book), 0), sys.venue, sys.book, true) }

  lemma FirstPoll(me: WitnessKey, book: seq<Entry>, a: Answer, at: int)
    requires ServedFrom(book, None, a) && a.accepted
    ensures var (s, o) := Polled(Empty, me, a, at, 0);
      o.Cosigned? && Follows(s, book) && s.watching == [] && s.receipts == [SignReceipt(me, a.venueId, |book| - 1, HeadHash(book), at)]
  {
    assert Book([]);
    PollCosignsExactlyExtensions(Empty, [], me, book, a, at, 0);
    PollIssues(Empty, me, a, at, 0);
    PollWatchesNoMore(Empty, me, a, at, 0);
    NothingWatched(Polled(Empty, me, a, at, 0).0);
  }

  lemma NothingWatched(s: State)
    requires WatchesNoMore(Empty, s)
    ensures s.watching == []
  {
    HasMember(s.watching);
  }

  lemma HasMember(ps: seq<Promise>)
    ensures ps != [] ==> exists p :: p in ps
  {
    if ps != [] { assert ps[0] in ps; }
  }

  lemma FirstPollIsEnabled(sys: Sys, w: string)
    requires Upright(sys) && w in sys.nodes && sys.nodes[w].s == Empty
    ensures Enabled(sys, Poll(w, |sys.book|, WholeBook(sys), 0)) && Prompt(sys, Poll(w, |sys.book|, WholeBook(sys), 0))
  {
    BookIsServed(sys.book, sys.venue);
    assert sys.book[..|sys.book|] == sys.book;
    ServedIsSnapshot(sys.book, None, |sys.book|, WholeBook(sys));
  }

  /** A new witness polls an honest venue for the first time. */
  lemma PolledFirst(sys: Sys, w: string)
    requires Honest(sys) && w in sys.nodes && sys.nodes[w].s == Empty
    ensures var poll := Poll(w, |sys.book|, WholeBook(sys), 0);
      && Enabled(sys, poll) && Prompt(sys, poll) && Honest(Next(sys, poll))
      && var n := Next(sys, poll).nodes[w];
         && Follows(n.s, sys.book) && n.s.watching == [] && n.polledAt == sys.now && n.me == sys.nodes[w].me
         && n.s.receipts == [SignReceipt(n.me, sys.venue, |sys.book| - 1, HeadHash(sys.book), sys.now)]
  {
    FirstPollIsEnabled(sys, w);
    StepKeepsHonest(sys, Poll(w, |sys.book|, WholeBook(sys), 0));
    BookIsServed(sys.book, sys.venue);
    FirstPoll(sys.nodes[w].me, sys.book, WholeBook(sys), sys.now);
  }

  function FirstPollOf(me: WitnessKey): Step { Poll(me.witnessId, 1, WholeBook(Founded(me)), 0) }

  lemma FoundedIsPolled(me: WitnessKey)
    ensures Enabled(Founded(me), FirstPollOf(me)) && Prompt(Founded(me), FirstPollOf(me)) && Honest(Next(Founded(me), FirstPollOf(me)))
    ensures me.witnessId in Next(Founded(me), FirstPollOf(me)).nodes
    ensures var n := Next(Founded(me), FirstPollOf(me)).nodes[me.witnessId];
      n.s.watching == [] && n.polledAt == 0 && Latest(n.s).Some? && Latest(n.s).value.at == 0
  {
    FoundedIsHonest(me);
    PolledFirst(Founded(me), me.witnessId);
  }

  lemma FoundedHasNoNotice(me: WitnessKey)
    ensures forall h :: !OnBook(Founded(me).book, h)
  {
  }

  /** What a witness knows that has polled a newly founded venue. */
  lemma FoundedThenPolled(me: WitnessKey) returns (polled: Sys)
    ensures Enabled(Founded(me), FirstPollOf(me)) && Prompt(Founded(me), FirstPollOf(me))
    ensures polled == Next(Founded(me), FirstPollOf(me)) && Honest(polled)
    ensures polled.promised == {} && me.witnessId in polled.nodes && forall h :: !OnBook(polled.book, h)
    ensures var n := polled.nodes[me.witnessId];
      n.s.watching == [] && n.polledAt == 0 && Latest(n.s).Some? && Latest(n.s).value.at == 0
  {
    FoundedIsPolled(me);
    StepFrame(Founded(me), FirstPollOf(me));
    FoundedHasNoNotice(me);
    polled := Next(Founded(me), FirstPollOf(me));
  }

  /** From the founding on, every step prompt and no promise ever given: a forged one is lodged, and the witness holds it broken. */
  lemma ForgeryHappens(me: WitnessKey, noticeHash: string) returns (steps: seq<Step>, p: Promise)
    ensures Runs(Founded(me), steps) && PromptRun(Founded(me), steps) && After(Founded(me), steps).promised == {}
    ensures me.witnessId in After(Founded(me), steps).nodes && HasBroken(After(Founded(me), steps).nodes[me.witnessId].s.broken, p)
    ensures p.noticeHash == noticeHash
  {
    var polled := FoundedThenPolled(me);
    p := Promise(noticeHash, -1);
    var poll, lodging := FirstPollOf(me), Watch(me.witnessId, OfPromise(p), 0);
    ForgedPromiseAccusesAtLodging(polled, me.witnessId, p, 0);
    TwoSteps(Founded(me), poll, lodging);
    steps := [poll, lodging];
  }

  /** The venue puts a notice on its book; then time may pass. */
  lemma NotedInTime(sys: Sys, noticeHash: string, t: int)
    requires Upright(sys) && noticeHash != "" && t >= sys.now
    requires forall p :: p in sys.promised ==> p.noticeHash == noticeHash
    ensures Runs(sys, [Note(noticeHash), Tick(t)]) && PromptRun(sys, [Note(noticeHash), Tick(t)])
    ensures var later := After(sys, [Note(noticeHash), Tick(t)]);
      later == sys.(book := Next(sys, Note(noticeHash)).book, now := t)
  {
    var s1 := Next(sys, Note(noticeHash));
    assert Noted(s1.book[|sys.book|]);
    assert OnBook(s1.book, noticeHash);
    assert KeepsPromises(s1, t) && Enabled(s1, Tick(t));
    TwoSteps(sys, Note(noticeHash), Tick(t));
  }

  /** A new witness with one promise of the venue's to watch. */
  lemma Promising(me: WitnessKey, p: Promise) returns (sys: Sys)
    requires p.includeBy >= 0
    ensures Honest(sys) && sys == Founded(me).(promised := {p}, nodes := map[me.witnessId := Node(me, [], Empty.(watching := [p]), 0)])
  {
    FoundedIsHonest(me);
    StepKeepsHonest(Founded(me), GivePromise(p));
    var given := Next(Founded(me), GivePromise(p));
    StepKeepsHonest(given, Watch(me.witnessId, OfPromise(p), 0));
    sys := Next(given, Watch(me.witnessId, OfPromise(p), 0));
    assert Empty.watching + [p] == [p] && !Watches([], p.noticeHash);
    assert Watched(Empty, OfPromise(p), 0) == Empty.(watching := [p]);
  }

  /** A run of an honest system in which PollStraddlingTheDeadlineAccuses applies. */
  lemma StraddlingHappens(me: WitnessKey, noticeHash: string) returns (sys: Sys, p: Promise)
    requires noticeHash != ""
    ensures Honest(sys) && Trusting(sys) && Runs(sys, [Note(noticeHash), Tick(1)]) && p in sys.promised
    ensures var later := After(sys, [Note(noticeHash), Tick(1)]);
      var poll := Poll(me.witnessId, 1, WholeBook(sys), 1);
      && OnBook(later.book, p.noticeHash) && Enabled(later, poll)
      && me.witnessId in Next(later, poll).nodes && HasBroken(Next(later, poll).nodes[me.witnessId].s.broken, p)
  {
    p := Promise(noticeHash, 0);
    sys := Promising(me, p);
    var steps := [Note(noticeHash), Tick(1)];
    NotedInTime(sys, noticeHash, 1);
    BookIsServed(sys.book, sys.venue);
    assert sys.nodes[me.witnessId].s.watching == [p] && p in sys.nodes[me.witnessId].s.watching;
    PollStraddlingTheDeadlineAccuses(sys, steps, me.witnessId, WholeBook(sys), p);
  }

  /** From a witness that has signed for the head of a book of two: the promise, its entry, and a later day. */
  lemma LodgingHappensFrom(polled: Sys, w: string, p: Promise) returns (sys: Sys)
    requires Honest(polled) && |polled.book| == 2 && polled.promised == {} && polled.now == p.includeBy && polled.venue != ""
    requires w in polled.nodes && p.noticeHash != "" && !OnBook(polled.book, p.noticeHash)
    requires var n := polled.nodes[w];
      && Follows(n.s, polled.book) && n.s.watching == []
      && n.s.receipts == [SignReceipt(n.me, polled.venue, 1, HeadHash(polled.book), polled.now)]
    ensures Honest(sys) && w in sys.nodes && p in sys.promised && OnBook(sys.book, p.noticeHash)
    ensures var steps := [Ask(w, 0), Watch(w, OfPromise(p), sys.now)];
      Runs(sys, steps) && w in After(sys, steps).nodes && HasBroken(After(sys, steps).nodes[w].s.broken, p)
  {
    var promising := Next(polled, GivePromise(p));
    StepKeepsHonest(polled, GivePromise(p));
    var steps := [Note(p.noticeHash), Tick(p.includeBy + 1)];
    NotedInTime(promising, p.noticeHash, p.includeBy + 1);
    PromptRunsAccuseOfNothingGiven(promising, steps);
    sys := After(promising, steps);
    var s := sys.nodes[w].s;
    NoticedExactlyOnBook(s, polled.book, p.noticeHash);
    assert s.receipts[1..] == [];
    LodgingAfterReceiptOnDemandAccuses(sys, w, p, 0, sys.now);
  }

  /** A founded venue with one more entry, and a witness that has yet to poll. */
  lemma TwoOnTheBook(me: WitnessKey) returns (sys: Sys)
    ensures Honest(sys) && |sys.book| == 2 && sys.promised == {} && sys.now == 0 && sys.venue == "v"
    ensures sys.nodes == map[me.witnessId := Node(me, [], Empty, 0)]
    ensures forall h :: !OnBook(sys.book, h)
  {
    var append := AppendEntry(OTHER, Plain(None), 0, Key);
    FoundedIsHonest(me);
    StepKeepsHonest(Founded(me), append);
    sys := Next(Founded(me), append);
  }

  /** A run of an honest system in which LodgingAfterReceiptOnDemandAccuses applies. */
  lemma LodgingHappens(me: WitnessKey, noticeHash: string) returns (sys: Sys, p: Promise)
    requires noticeHash != ""
    ensures Honest(sys) && me.witnessId in sys.nodes && p in sys.promised && OnBook(sys.book, p.noticeHash)
    ensures var steps := [Ask(me.witnessId, 0), Watch(me.witnessId, OfPromise(p), sys.now)];
      Runs(sys, steps) && me.witnessId in After(sys, steps).nodes && HasBroken(After(sys, steps).nodes[me.witnessId].s.broken, p)
  {
    var w := me.witnessId;
    p := Promise(noticeHash, 0);
    var two := TwoOnTheBook(me);
    PolledFirst(two, w);
    var polled := Next(two, Poll(w, 2, WholeBook(two), 0));
    assert polled.book == two.book && polled.promised == {} && polled.now == 0 && polled.venue == "v" && polled.nodes[w].me == me;
    sys := LodgingHappensFrom(polled, w, p);
  }

  /** A run from the founding: the head of one entry, one more appended, the slice of two. */
  lemma TearingHappens(me: WitnessKey) returns (steps: seq<Step>)
    ensures Runs(Founded(me), steps) && me.witnessId in After(Founded(me), steps).nodes
    ensures |After(Founded(me), steps).nodes[me.witnessId].s.forks| == 1
  {
    var append := AppendEntry(OTHER, Plain(None), 0, Key);
    FoundedIsHonest(me);
    StepKeepsUpright(Founded(me), append);
    var grown := Next(Founded(me), append);
    var a := Served(Head(0, grown.book[0].hash, 0), "v", grown.book, true);
    BookIsServed(grown.book, "v");
    assert grown.book[..2] == grown.book;
    TornReadAccuses(grown, me.witnessId, 1, 2, a, 0);
    TwoSteps(Founded(me), append, Poll(me.witnessId, 1, a, 0));
    steps := [append, Poll(me.witnessId, 1, a, 0)];
  }
}
