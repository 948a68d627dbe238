/**
 Gossip between two witnesses finds an equivocation exactly when there is one to find.
 */
module GossipTheorems {
  import opened Wrappers
  import opened Chain
  import opened ChainTheorems
  import opened Witness
  import opened WitnessCore
  import opened WitnessTheorems

  /** A witness that has verified `view` of the venue it knows as `venue`, and issued receipts for nothing else. */
  ghost predicate Witnesses(s: State, me: WitnessKey, venue: string, view: seq<Entry>) {
    && Follows(s, view)
    && ReceiptsStand(s, me)
    && (s.receipts == [] <==> view == [])
    && (forall r :: r in s.receipts ==> r.venueId == venue)
  }

  /** Signed by a peer the witness has pinned. */
  predicate KnownPeer(peers: seq<WitnessKey>, r: Receipt) {
    FindKey(peers, r.witnessId).Some? && VerifyReceipt(r, FindKey(peers, r.witnessId).value.x)
  }

  predicate Introduced(peers: seq<WitnessKey>, who: WitnessKey) { FindKey(peers, who.witnessId) == Some(who) }

  lemma {:induction false} ReceiptAtFinds(rs: seq<Receipt>, n: int)
    ensures ReceiptAt(rs, n).Some? ==> ReceiptAt(rs, n).value in rs && ReceiptAt(rs, n).value.seqNo == n
  {
    if rs != [] && rs[0].seqNo != n { ReceiptAtFinds(rs[1..], n); }
  }

  lemma {:induction false} ReceiptMatchingFinds(rs: seq<Receipt>, n: int, h: Hash)
    ensures var r := ReceiptMatching(rs, n, h); r.Some? ==> r.value in rs && r.value.seqNo == n && r.value.hash == h
  {
    if rs != [] && !(rs[0].seqNo == n && rs[0].hash == h) { ReceiptMatchingFinds(rs[1..], n, h); }
  }

  lemma SignedReceiptStands(s: State, me: WitnessKey, venue: string, view: seq<Entry>, r: Receipt)
    requires Witnesses(s, me, venue, view)
    requires 0 <= r.seqNo < |view| && r == SignReceipt(me, venue, r.seqNo, view[r.seqNo].hash, r.at)
    ensures Witnesses(s.(receipts := s.receipts + [r]), me, venue, view)
  {
  }

  /** Asked for a position it verified, a witness answers with its word for that position, and learns nothing. */
  lemma ReceiptForVerifiedPosition(s: State, me: WitnessKey, venue: string, view: seq<Entry>, n: nat, at: int)
    requires Witnesses(s, me, venue, view) && venue != "" && n < |view|
    ensures var (t, r) := ReceiptedFor(s, me, n, at);
      && Witnesses(t, me, venue, view)
      && r.Some? && r.value in t.receipts && r.value.seqNo == n && r.value.hash == view[n].hash
  {
    ReceiptMatchingFinds(s.receipts, n, s.seen[n]);
    assert s.receipts[0] in s.receipts;
    var (t, r) := ReceiptedFor(s, me, n, at);
    if t != s { SignedReceiptStands(s, me, venue, view, r.value); }
  }

  /** The latest receipt is the witness's own word for some position it verified; there is one once anything is verified. */
  lemma LatestReceiptStands(s: State, me: WitnessKey, venue: string, view: seq<Entry>)
    requires Witnesses(s, me, venue, view)
    ensures Latest(s).Some? <==> view != []
    ensures Latest(s).Some? ==> var r := Latest(s).value;
      0 <= r.seqNo < |view| && r == SignReceipt(me, venue, r.seqNo, view[r.seqNo].hash, r.at)
  {
    if Latest(s).Some? { assert Latest(s).value in s.receipts; }
  }

  /** It is the last signed, not the highest: a receipt signed on demand for an old position takes its place. */
  lemma LatestMayBeLow(s: State, me: WitnessKey, venue: string, view: seq<Entry>, n: nat, at: int)
    requires Witnesses(s, me, venue, view) && venue != "" && n < |view|
    ensures ReceiptMatching(s.receipts, n, view[n].hash).None?
      <==> Latest(ReceiptedFor(s, me, n, at).0) == Some(SignReceipt(me, venue, n, view[n].hash, at)) && ReceiptedFor(s, me, n, at).0 != s
  {
    assert s.receipts[0] in s.receipts;
  }

  /** Comparing a peer's genuine receipt detects exactly a difference at its position. */
  lemma GossipedDetectsDifference(s: State, me: WitnessKey, venue: string, view: seq<Entry>, peers: seq<WitnessKey>, peer: WitnessKey, r: Receipt, now: int)
    requires Witnesses(s, me, venue, view) && Introduced(peers, peer)
    requires r.witnessId == peer.witnessId && r.signedBy == Some(peer.x) && r.venueId == venue
    ensures var (t, o) := Gossiped(s, me, peers, r, now);
      && Witnesses(t, me, venue, view)
      && !o.Failed?
      && (o.Detected? <==> 0 <= r.seqNo < |view| && view[r.seqNo].hash != r.hash)
      && (o.Detected? ==>
            && t.halted.Some? && HoldsConflict(t.equivocations, o.proof)
            && o.proof.b == r && o.proof.a in t.receipts && o.proof.a.seqNo == r.seqNo && o.proof.a.hash == view[r.seqNo].hash
            && forall keys :: Introduced(keys, me) && Introduced(keys, peer) ==> VerifyProof(o.proof, keys))
  {
    ReceiptAtFinds(s.receipts, r.seqNo);
    var t := s.(peerReceipts := s.peerReceipts[r.witnessId := r]);
    if r.seqNo in s.seen && s.seen[r.seqNo] != r.hash {
      var own := ReceiptAt(t.receipts, r.seqNo);
      var mine := if own.Some? then own.value else SignReceipt(me, r.venueId, r.seqNo, t.seen[r.seqNo], now);
      assert Witnesses(t, me, venue, view);
      if own.None? { SignedReceiptStands(t, me, venue, view, mine); }
      var u := if own.Some? then t else t.(receipts := t.receipts + [mine]);
      RecordedHolds(u, MakeProof(mine, r, me.witnessId, now).value);
    }
  }

  lemma RecordedHolds(s: State, p: EquivocationProof)
    ensures var t := Recorded(s, p); t.halted.Some? && HoldsConflict(t.equivocations, p) && t == s.(equivocations := t.equivocations, halted := t.halted)
  {
    var t := Recorded(s, p);
    if !HoldsConflict(s.equivocations, p) {
      assert SameConflict(t.equivocations[|s.equivocations|], p);
    }
  }

  function Min(a: int, b: int): int { if a < b then a else b }

  /**
   Gossip is complete and sound. One round between two witnesses yields a proof of equivocation exactly
   when their views differ anywhere at or below the lower of their latest receipts; the proof verifies
   under any key list that introduces both, and the detector halts. (Their latest receipts need not be
   their highest.)
   */
  lemma GossipFindsExactlyTheEquivocations(
      a: State, meA: WitnessKey, peersA: seq<WitnessKey>, viewA: seq<Entry>,
      b: State, meB: WitnessKey, peersB: seq<WitnessKey>, viewB: seq<Entry>,
      venue: string, now: int)
    requires venue != "" && Witnesses(a, meA, venue, viewA) && Witnesses(b, meB, venue, viewB)
    requires viewA != [] && viewB != []
    requires Introduced(peersA, meB) && Introduced(peersB, meA)
    ensures var (a1, b1, o) := Round(a, meA, peersA, b, meB, peersB, Latest(a), now);
      var m := Min(Latest(a).value.seqNo, Latest(b).value.seqNo);
      && 0 <= m < |viewA| && m < |viewB|
      && (o.Detected? <==> exists i :: 0 <= i <= m && viewA[i].hash != viewB[i].hash)
      && (o.Detected? ==>
            && a1.halted.Some? && HoldsConflict(a1.equivocations, o.proof)
            && forall keys :: Introduced(keys, meA) && Introduced(keys, meB) ==> VerifyProof(o.proof, keys))
      && !o.Failed?
      && Witnesses(a1, meA, venue, viewA) && Witnesses(b1, meB, venue, viewB)
  {
    var mine, latest := Latest(a).value, Latest(b).value;
    assert mine in a.receipts && latest in b.receipts;
    GossipedDetectsDifference(b, meB, venue, viewB, peersB, meA, mine, now);
    var b1 := Gossiped(b, meB, peersB, mine, now).0;
    var m := Min(mine.seqNo, latest.seqNo);
    HashesTellHistories(viewA, viewB, m);
    if latest.seqNo > mine.seqNo {
      ReceiptForVerifiedPosition(b1, meB, venue, viewB, mine.seqNo, now);
      var (b2, answer) := ReceiptedFor(b1, meB, mine.seqNo, now);
      GossipedDetectsDifference(a, meA, venue, viewA, peersA, meB, answer.value, now);
    } else {
      GossipedDetectsDifference(a, meA, venue, viewA, peersA, meB, latest, now);
    }
  }

  /**
   A venue that names itself differently to different witnesses: the conflict at a position the witness
   holds a receipt for is then not turned into a proof; gossip fails there. Without a receipt at that
   position the witness signs one under the peer's name for the venue, and the proof is made.
   */
  lemma ConflictAcrossVenueNames(s: State, me: WitnessKey, venue: string, view: seq<Entry>, peers: seq<WitnessKey>, peer: WitnessKey, r: Receipt, now: int)
    requires Witnesses(s, me, venue, view) && Introduced(peers, peer)
    requires r.witnessId == peer.witnessId && r.signedBy == Some(peer.x) && r.venueId != venue
    requires 0 <= r.seqNo < |view| && view[r.seqNo].hash != r.hash
    ensures var (t, o) := Gossiped(s, me, peers, r, now);
      && (o.Failed? <==> ReceiptAt(s.receipts, r.seqNo).Some?)
      && (o.Detected? <==> ReceiptAt(s.receipts, r.seqNo).None?)
      && (o.Failed? ==> t.equivocations == s.equivocations && t.halted == s.halted)
  {
    ReceiptAtFinds(s.receipts, r.seqNo);
  }

  // ---------------------------------------------------------------- from the first poll to the proof

  /** The venue serves this witness from one book, at whatever lengths, under one name. */
  ghost predicate OneBook(steps: seq<PollStep>, book: seq<Entry>, venue: string) {
    forall i :: 0 <= i < |steps| ==> OneBookAt(steps[i], book, venue)
  }

  ghost predicate OneBookAt(p: PollStep, book: seq<Entry>, venue: string) {
    p.book <= book && p.answer.Served? && p.answer.venueId == venue
  }

  /** A witness of a beginning of the book, whose latest receipt is for its end. */
  ghost predicate WitnessesStart(s: State, me: WitnessKey, venue: string, view: seq<Entry>, book: seq<Entry>) {
    && Witnesses(s, me, venue, view) && view <= book
    && (view != [] ==> Latest(s).value.seqNo == |view| - 1)
  }

  lemma CosigningWitnesses(s: State, t: State, me: WitnessKey, venue: string, book: seq<Entry>, r: Receipt)
    requires Follows(t, book) && ReceiptsStand(t, me) && book != [] && t.receipts == s.receipts + [r]
    requires r.venueId == venue && r.seqNo == |book| - 1 && forall q :: q in s.receipts ==> q.venueId == venue
    ensures Witnesses(t, me, venue, book) && Latest(t).value.seqNo == |book| - 1
  {
  }

  lemma NothingNewWitnesses(s: State, t: State, me: WitnessKey, venue: string, view: seq<Entry>, book: seq<Entry>)
    requires WitnessesStart(s, me, venue, view, book) && t == s.(forks := t.forks)
    ensures WitnessesStart(t, me, venue, view, book)
  {
  }

  lemma PollKeepsWitness(s: State, me: WitnessKey, venue: string, view: seq<Entry>, book: seq<Entry>, p: PollStep)
    requires WitnessesStart(s, me, venue, view, book) && s.halted.None? && ServedFrom(p.book, s.lastCosigned, p.answer) && OneBookAt(p, book, venue)
    ensures var (t, o) := Polled(s, me, p.answer, p.at, p.now);
      WitnessesStart(t, me, venue, if o.Cosigned? then p.book else view, book)
  {
    PollCosignsExactlyExtensions(s, view, me, p.book, p.answer, p.at, p.now);
    var (t, o) := Polled(s, me, p.answer, p.at, p.now);
    if o.Cosigned? {
      PollKeepsReceipts(s, view, me, p.book, p.answer, p.at, p.now);
      PollIssues(s, me, p.answer, p.at, p.now);
      CosigningWitnesses(s, t, me, venue, p.book, o.receipt);
    } else {
      NothingNewWitnesses(s, t, me, venue, view, book);
    }
  }

  lemma {:induction false} RunKeepsWitness(s: State, me: WitnessKey, venue: string, view: seq<Entry>, book: seq<Entry>, steps: seq<PollStep>)
    returns (last: seq<Entry>)
    requires WitnessesStart(s, me, venue, view, book) && ServedThroughout(s, me, steps) && OneBook(steps, book, venue)
    ensures WitnessesStart(RunPolls(s, me, steps), me, venue, last, book)
    decreases |steps|
  {
    if steps == [] {
      last := view;
    } else {
      var p := steps[0];
      var (t, o) := Polled(s, me, p.answer, p.at, p.now);
      assert OneBookAt(steps[0], book, venue) && forall i :: 0 <= i < |steps[1..]| ==> steps[1..][i] == steps[i + 1];
      if s.halted.None? { PollKeepsWitness(s, me, venue, view, book, p); }
      last := RunKeepsWitness(t, me, venue, if o.Cosigned? then p.book else view, book, steps[1..]);
    }
  }

  lemma EmptyWitnesses(me: WitnessKey, venue: string, book: seq<Entry>)
    ensures WitnessesStart(Empty, me, venue, [], book)
  {
    assert Book([]) && [] <= book;
  }

  function Position(s: State): int { if s.lastCosigned.Some? then s.lastCosigned.value.seqNo else -1 }

  lemma FromTheStart(me: WitnessKey, venue: string, book: seq<Entry>, steps: seq<PollStep>) returns (view: seq<Entry>)
    requires ServedThroughout(Empty, me, steps) && OneBook(steps, book, venue) && RunPolls(Empty, me, steps).receipts != []
    ensures Witnesses(RunPolls(Empty, me, steps), me, venue, view) && view <= book && view != []
    ensures Latest(RunPolls(Empty, me, steps)).value.seqNo == Position(RunPolls(Empty, me, steps)) == |view| - 1
  {
    EmptyWitnesses(me, venue, book);
    view := RunKeepsWitness(Empty, me, venue, [], book, steps);
    WitnessPosition(RunPolls(Empty, me, steps), me, venue, view);
  }

  lemma WitnessPosition(s: State, me: WitnessKey, venue: string, view: seq<Entry>)
    requires Witnesses(s, me, venue, view)
    ensures Position(s) == |view| - 1
  {
  }

  /** Every position from 0 to this one has the same hash in both. */
  ghost predicate AgreeTo(a: seq<Entry>, b: seq<Entry>, m: int)
    requires m < |a| && m < |b|
  {
    forall i :: 0 <= i <= m ==> a[i].hash == b[i].hash
  }

  /** What one round makes of two witnesses: a proof exactly if their books do not agree, and then one anybody can verify. */
  ghost predicate FindsOut(a: State, meA: WitnessKey, peersA: seq<WitnessKey>, bookA: seq<Entry>,
      b: State, meB: WitnessKey, peersB: seq<WitnessKey>, bookB: seq<Entry>, m: int, now: int)
    requires m < |bookA| && m < |bookB|
  {
    var (a1, b1, o) := Round(a, meA, peersA, b, meB, peersB, Latest(a), now);
    && (o.Detected? <==> !AgreeTo(bookA, bookB, m))
    && (o.Detected? ==> a1.halted.Some? && forall keys :: Introduced(keys, meA) && Introduced(keys, meB) ==> VerifyProof(o.proof, keys))
  }

  lemma RoundOverBooks(
      a: State, meA: WitnessKey, peersA: seq<WitnessKey>, viewA: seq<Entry>, bookA: seq<Entry>,
      b: State, meB: WitnessKey, peersB: seq<WitnessKey>, viewB: seq<Entry>, bookB: seq<Entry>, venue: string, now: int)
    requires venue != "" && Witnesses(a, meA, venue, viewA) && Witnesses(b, meB, venue, viewB)
    requires [] < viewA <= bookA && [] < viewB <= bookB
    requires Introduced(peersA, meB) && Introduced(peersB, meA)
    ensures var m := Min(Latest(a).value.seqNo, Latest(b).value.seqNo);
      0 <= m < |bookA| && m < |bookB| && FindsOut(a, meA, peersA, bookA, b, meB, peersB, bookB, m, now)
  {
    GossipFindsExactlyTheEquivocations(a, meA, peersA, viewA, b, meB, peersB, viewB, venue, now);
    var m := Min(Latest(a).value.seqNo, Latest(b).value.seqNo);
    assert forall i :: 0 <= i <= m ==> viewA[i] == bookA[i] && viewB[i] == bookB[i];
  }

  /**
   End to end. A venue keeps two books and serves each of two new witnesses from one of them, poll after poll, at
   whatever lengths and in whatever order of entries. Once both have cosigned, one round of gossip yields a proof,
   which anybody who knows both witnesses can verify, exactly when the books differ anywhere up to the shorter of the
   two positions cosigned.
   */
  lemma TwoBooksAreFoundOut(
      meA: WitnessKey, peersA: seq<WitnessKey>, bookA: seq<Entry>, stepsA: seq<PollStep>,
      meB: WitnessKey, peersB: seq<WitnessKey>, bookB: seq<Entry>, stepsB: seq<PollStep>, venue: string, now: int)
    requires venue != "" && Introduced(peersA, meB) && Introduced(peersB, meA)
    requires ServedThroughout(Empty, meA, stepsA) && OneBook(stepsA, bookA, venue) && RunPolls(Empty, meA, stepsA).receipts != []
    requires ServedThroughout(Empty, meB, stepsB) && OneBook(stepsB, bookB, venue) && RunPolls(Empty, meB, stepsB).receipts != []
    ensures var a, b := RunPolls(Empty, meA, stepsA), RunPolls(Empty, meB, stepsB);
      var m := Min(Position(a), Position(b));
      0 <= m < |bookA| && m < |bookB| && FindsOut(a, meA, peersA, bookA, b, meB, peersB, bookB, m, now)
  {
    var viewA := FromTheStart(meA, venue, bookA, stepsA);
    var viewB := FromTheStart(meB, venue, bookB, stepsB);
    RoundOverBooks(RunPolls(Empty, meA, stepsA), meA, peersA, viewA, bookA, RunPolls(Empty, meB, stepsB), meB, peersB, viewB, bookB, venue, now);
  }

  // ---------------------------------------------------------------- whatever else happens on the way

  /** Anything a witness does or is told. */
  datatype Happening =
    | Polls(poll: PollStep)
    | Hears(receipt: Receipt, at: int)
    | IsAsked(n: int, at: int)
    | IsLodged(item: Item, at: int)
    | IsShown(proof: EquivocationProof)
    | IsTold(b: Broken)

  function Met(s: State, me: WitnessKey, peers: seq<WitnessKey>, h: Happening): State {
    match h
    case Polls(p) => Polled(s, me, p.answer, p.at, p.now).0
    case Hears(r, at) => Gossiped(s, me, peers, r, at).0
    case IsAsked(n, at) => ReceiptedFor(s, me, n, at).0
    case IsLodged(item, at) => Watched(s, item, at)
    case IsShown(proof) => ProofReceived(s, me, peers, proof).0
    case IsTold(b) => BrokenReceived(s, b)
  }

  function RunHappenings(s: State, me: WitnessKey, peers: seq<WitnessKey>, hs: seq<Happening>): State
    decreases |hs|
  {
    if hs == [] then s else RunHappenings(Met(s, me, peers, hs[0]), me, peers, hs[1..])
  }

  /** The venue answers from one book under one name, and genuine receipts heard speak of it by that name; the rest is arbitrary. */
  ghost predicate OneBookAll(s: State, me: WitnessKey, peers: seq<WitnessKey>, hs: seq<Happening>, book: seq<Entry>, venue: string)
    decreases |hs|
  {
    hs == [] || (
      && (hs[0].Polls? && s.halted.None? ==> ServedFrom(hs[0].poll.book, s.lastCosigned, hs[0].poll.answer) && OneBookAt(hs[0].poll, book, venue))
      && (hs[0].Hears? && KnownPeer(peers, hs[0].receipt) ==> hs[0].receipt.venueId == venue)
      && OneBookAll(Met(s, me, peers, hs[0]), me, peers, hs[1..], book, venue))
  }

  /** Two states that agree on what was verified and signed witness the same view. */
  lemma SameWord(s: State, t: State, me: WitnessKey, venue: string, view: seq<Entry>)
    requires Witnesses(s, me, venue, view)
    requires t.lastCosigned == s.lastCosigned && t.seen == s.seen && t.noticesSeen == s.noticesSeen && t.receipts == s.receipts
    ensures Witnesses(t, me, venue, view)
  {
  }

  lemma HearingKeepsWitness(s: State, me: WitnessKey, venue: string, view: seq<Entry>, peers: seq<WitnessKey>, r: Receipt, now: int)
    requires Witnesses(s, me, venue, view) && (KnownPeer(peers, r) ==> r.venueId == venue)
    ensures Witnesses(Gossiped(s, me, peers, r, now).0, me, venue, view)
  {
    var t := Gossiped(s, me, peers, r, now).0;
    var noted := s.(peerReceipts := s.peerReceipts[r.witnessId := r]);
    SameWord(s, noted, me, venue, view);
    if t.receipts != s.receipts {
      var mine := SignReceipt(me, venue, r.seqNo, s.seen[r.seqNo], now);
      assert t.receipts == s.receipts + [mine];
      SignedReceiptStands(noted, me, venue, view, mine);
      SameWord(noted.(receipts := noted.receipts + [mine]), t, me, venue, view);
    } else {
      SameWord(s, t, me, venue, view);
    }
  }

  lemma AskingKeepsWitness(s: State, me: WitnessKey, venue: string, view: seq<Entry>, n: int, at: int)
    requires Witnesses(s, me, venue, view)
    ensures Witnesses(ReceiptedFor(s, me, n, at).0, me, venue, view)
  {
    var (t, r) := ReceiptedFor(s, me, n, at);
    if t != s {
      assert s.receipts[0] in s.receipts;
      SignedReceiptStands(s, me, venue, view, r.value);
    }
  }

  predicate SaysAlike(s: State, t: State) {
    t.lastCosigned == s.lastCosigned && t.seen == s.seen && t.noticesSeen == s.noticesSeen && t.receipts == s.receipts
  }

  lemma CheckingSaysNothing(s: State, r: Receipt, now: int)
    ensures SaysAlike(s, CheckedWatch(s, r, now))
  {
  }

  lemma LodgingSaysNothing(s: State, item: Item, at: int)
    ensures SaysAlike(s, Watched(s, item, at))
  {
    var u := Lodged(s, item);
    if u.receipts != [] { CheckingSaysNothing(u, u.receipts[|u.receipts| - 1], at); }
  }

  lemma LodgingKeepsWitness(s: State, me: WitnessKey, venue: string, view: seq<Entry>, item: Item, at: int)
    requires Witnesses(s, me, venue, view)
    ensures Witnesses(Watched(s, item, at), me, venue, view)
  {
    LodgingSaysNothing(s, item, at);
    SameWord(s, Watched(s, item, at), me, venue, view);
  }

  lemma PollingKeepsWitness(s: State, me: WitnessKey, venue: string, view: seq<Entry>, book: seq<Entry>, p: PollStep) returns (next: seq<Entry>)
    requires Witnesses(s, me, venue, view) && view <= book
    requires s.halted.None? ==> ServedFrom(p.book, s.lastCosigned, p.answer) && OneBookAt(p, book, venue)
    ensures Witnesses(Polled(s, me, p.answer, p.at, p.now).0, me, venue, next) && next <= book
  {
    var (t, o) := Polled(s, me, p.answer, p.at, p.now);
    next := if o.Cosigned? then p.book else view;
    if s.halted.None? {
      PollCosignsExactlyExtensions(s, view, me, p.book, p.answer, p.at, p.now);
      if o.Cosigned? {
        PollKeepsReceipts(s, view, me, p.book, p.answer, p.at, p.now);
        PollIssues(s, me, p.answer, p.at, p.now);
        CosigningWitnesses(s, t, me, venue, p.book, o.receipt);
      } else {
        SameWord(s, t, me, venue, view);
      }
    }
  }

  lemma MeetingKeepsWitness(s: State, me: WitnessKey, peers: seq<WitnessKey>, venue: string, view: seq<Entry>, book: seq<Entry>, h: Happening)
    returns (next: seq<Entry>)
    requires Witnesses(s, me, venue, view) && view <= book
    requires h.Polls? && s.halted.None? ==> ServedFrom(h.poll.book, s.lastCosigned, h.poll.answer) && OneBookAt(h.poll, book, venue)
    requires h.Hears? && KnownPeer(peers, h.receipt) ==> h.receipt.venueId == venue
    ensures Witnesses(Met(s, me, peers, h), me, venue, next) && next <= book
  {
    next := view;
    match h {
      case Polls(p) => next := PollingKeepsWitness(s, me, venue, view, book, p);
      case Hears(r, at) => HearingKeepsWitness(s, me, venue, view, peers, r, at);
      case IsAsked(n, at) => AskingKeepsWitness(s, me, venue, view, n, at);
      case IsLodged(item, at) => LodgingKeepsWitness(s, me, venue, view, item, at);
      case IsShown(proof) => SameWord(s, Met(s, me, peers, h), me, venue, view);
      case IsTold(b) => SameWord(s, Met(s, me, peers, h), me, venue, view);
    }
  }

  /** Polls, gossip, receipts on demand, lodgings, proofs and reports in any order: the witness stays a witness of a beginning of the book. */
  lemma {:induction false} EveryRunKeepsWitness(s: State, me: WitnessKey, peers: seq<WitnessKey>, venue: string, view: seq<Entry>, book: seq<Entry>, hs: seq<Happening>)
    returns (last: seq<Entry>)
    requires Witnesses(s, me, venue, view) && view <= book && OneBookAll(s, me, peers, hs, book, venue)
    ensures Witnesses(RunHappenings(s, me, peers, hs), me, venue, last) && last <= book
    decreases |hs|
  {
    if hs == [] {
      last := view;
    } else {
      var next := MeetingKeepsWitness(s, me, peers, venue, view, book, hs[0]);
      last := EveryRunKeepsWitness(Met(s, me, peers, hs[0]), me, peers, venue, next, book, hs[1..]);
    }
  }

  lemma FromAnyHistory(me: WitnessKey, peers: seq<WitnessKey>, venue: string, book: seq<Entry>, hs: seq<Happening>) returns (view: seq<Entry>)
    requires OneBookAll(Empty, me, peers, hs, book, venue) && RunHappenings(Empty, me, peers, hs).receipts != []
    ensures Witnesses(RunHappenings(Empty, me, peers, hs), me, venue, view) && [] < view <= book
  {
    EmptyWitnesses(me, venue, book);
    view := EveryRunKeepsWitness(Empty, me, peers, venue, [], book, hs);
  }

  /**
   The same whatever else has happened to the two witnesses: gossip, also of forged receipts, receipts on demand,
   promises lodged, proofs and reports. One round yields a proof exactly when the books differ anywhere up to the
   lower of the positions their latest receipts are for.
   */
  lemma AnyHistoriesAreFoundOut(
      meA: WitnessKey, peersA: seq<WitnessKey>, bookA: seq<Entry>, historyA: seq<Happening>,
      meB: WitnessKey, peersB: seq<WitnessKey>, bookB: seq<Entry>, historyB: seq<Happening>, venue: string, now: int)
    requires venue != "" && Introduced(peersA, meB) && Introduced(peersB, meA)
    requires OneBookAll(Empty, meA, peersA, historyA, bookA, venue) && RunHappenings(Empty, meA, peersA, historyA).receipts != []
    requires OneBookAll(Empty, meB, peersB, historyB, bookB, venue) && RunHappenings(Empty, meB, peersB, historyB).receipts != []
    ensures var a, b := RunHappenings(Empty, meA, peersA, historyA), RunHappenings(Empty, meB, peersB, historyB);
      var m := Min(Latest(a).value.seqNo, Latest(b).value.seqNo);
      0 <= m < |bookA| && m < |bookB| && FindsOut(a, meA, peersA, bookA, b, meB, peersB, bookB, m, now)
  {
    var viewA := FromAnyHistory(meA, peersA, venue, bookA, historyA);
    var viewB := FromAnyHistory(meB, peersB, venue, bookB, historyB);
    RoundOverBooks(RunHappenings(Empty, meA, peersA, historyA), meA, peersA, viewA, bookA,
      RunHappenings(Empty, meB, peersB, historyB), meB, peersB, viewB, bookB, venue, now);
  }
}
