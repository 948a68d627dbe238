/**
 A venue that calls itself by several names: what its witnesses still find out.
 */
module VenueNames {
  import opened Wrappers
  import opened Chain
  import opened ChainTheorems
  import opened Witness
  import opened WitnessCore
  import opened WitnessTheorems
  import opened GossipTheorems

  /** A witness that has verified `view` of a venue, by whatever names, and issued receipts for nothing else. */
  ghost predicate Voices(s: State, me: WitnessKey, view: seq<Entry>) {
    && Follows(s, view)
    && ReceiptsStand(s, me)
    && (s.receipts == [] <==> view == [])
    && (forall r :: r in s.receipts ==> r.venueId != "")
  }

  lemma SignedIsVoiced(s: State, me: WitnessKey, view: seq<Entry>, r: Receipt)
    requires Voices(s, me, view) && r.venueId != ""
    requires 0 <= r.seqNo < |view| && r == SignReceipt(me, r.venueId, r.seqNo, view[r.seqNo].hash, r.at)
    ensures Voices(s.(receipts := s.receipts + [r]), me, view)
  {
  }

  lemma SameVoice(s: State, t: State, me: WitnessKey, view: seq<Entry>)
    requires Voices(s, me, view) && SaysAlike(s, t)
    ensures Voices(t, me, view)
  {
  }

  // ---------------------------------------------------------------- one receipt

  ghost predicate Differs(view: seq<Entry>, r: Receipt) { 0 <= r.seqNo < |view| && view[r.seqNo].hash != r.hash }

  /** The witness holds a receipt of its own for that position, under another name. */
  predicate NamedElsewhere(s: State, r: Receipt) {
    ReceiptAt(s.receipts, r.seqNo).Some? && ReceiptAt(s.receipts, r.seqNo).value.venueId != r.venueId
  }

  /** A peer's genuine receipt that differs is always noticed: it makes a proof, or gossip fails if the witness's own receipt there bears another name. */
  lemma GossipedUnderAnyName(s: State, me: WitnessKey, view: seq<Entry>, peers: seq<WitnessKey>, peer: WitnessKey, r: Receipt, now: int)
    requires Voices(s, me, view) && Introduced(peers, peer) && r.witnessId == peer.witnessId && r.signedBy == Some(peer.x) && r.venueId != ""
    ensures var (t, o) := Gossiped(s, me, peers, r, now);
      && Voices(t, me, view)
      && (o.Detected? <==> Differs(view, r) && !NamedElsewhere(s, r))
      && (o.Failed? <==> Differs(view, r) && NamedElsewhere(s, r))
      && (o.Detected? ==> t.halted.Some? && forall keys :: Introduced(keys, me) && Introduced(keys, peer) ==> VerifyProof(o.proof, keys))
      && (o.Failed? ==> t.equivocations == s.equivocations && t.halted == s.halted)
  {
    ReceiptAtFinds(s.receipts, r.seqNo);
    HearingKeepsVoice(s, me, view, peers, r, now);
  }

  lemma HearingKeepsVoice(s: State, me: WitnessKey, view: seq<Entry>, peers: seq<WitnessKey>, r: Receipt, now: int)
    requires Voices(s, me, view) && (KnownPeer(peers, r) ==> r.venueId != "")
    ensures Voices(Gossiped(s, me, peers, r, now).0, me, view)
  {
    var t := Gossiped(s, me, peers, r, now).0;
    if t.receipts != s.receipts {
      var mine := SignReceipt(me, r.venueId, r.seqNo, s.seen[r.seqNo], now);
      assert t.receipts == s.receipts + [mine];
      SignedIsVoiced(s, me, view, mine);
      SameVoice(s.(receipts := s.receipts + [mine]), t, me, view);
    } else {
      SameVoice(s, t, me, view);
    }
  }

  // ---------------------------------------------------------------- one round

  lemma AskedUnderAnyName(s: State, me: WitnessKey, view: seq<Entry>, n: nat, at: int)
    requires Voices(s, me, view) && n < |view|
    ensures var (t, r) := ReceiptedFor(s, me, n, at);
      && Voices(t, me, view) && r.Some?
      && r.value.seqNo == n && r.value.hash == view[n].hash && r.value.witnessId == me.witnessId && r.value.signedBy == Some(me.x) && r.value.venueId != ""
  {
    ReceiptMatchingFinds(s.receipts, n, s.seen[n]);
    assert s.receipts[0] in s.receipts;
    var (t, r) := ReceiptedFor(s, me, n, at);
    if t != s { SignedIsVoiced(s, me, view, r.value); }
  }

  /** The receipt of the peer's a round compares: its latest, or one for my position if it is ahead. */
  function Compared(b: State, meB: WitnessKey, peersB: seq<WitnessKey>, mine: Receipt, now: int): Option<Receipt> {
    if Latest(b).None? then None
    else if Latest(b).value.seqNo > mine.seqNo then ReceiptedFor(Gossiped(b, meB, peersB, mine, now).0, meB, mine.seqNo, now).1
    else Latest(b)
  }

  lemma LatestIsVoiced(s: State, me: WitnessKey, view: seq<Entry>)
    requires Voices(s, me, view) && view != []
    ensures Latest(s).Some?
    ensures var r := Latest(s).value;
      0 <= r.seqNo < |view| && r == SignReceipt(me, r.venueId, r.seqNo, view[r.seqNo].hash, r.at) && r.venueId != ""
  {
    assert Latest(s).value in s.receipts;
  }

  lemma ComparedStands(b: State, meB: WitnessKey, peersB: seq<WitnessKey>, viewB: seq<Entry>, mine: Receipt, now: int)
    requires Voices(b, meB, viewB) && viewB != [] && mine.venueId != "" && mine.seqNo >= 0
    ensures var c := Compared(b, meB, peersB, mine, now);
      && c.Some? && c.value.seqNo == Min(mine.seqNo, Latest(b).value.seqNo) && 0 <= c.value.seqNo < |viewB| && c.value.hash == viewB[c.value.seqNo].hash
      && c.value.witnessId == meB.witnessId && c.value.signedBy == Some(meB.x) && c.value.venueId != ""
  {
    LatestIsVoiced(b, meB, viewB);
    HearingKeepsVoice(b, meB, viewB, peersB, mine, now);
    if Latest(b).value.seqNo > mine.seqNo { AskedUnderAnyName(Gossiped(b, meB, peersB, mine, now).0, meB, viewB, mine.seqNo, now); }
  }

  lemma RoundCompares(a: State, meA: WitnessKey, peersA: seq<WitnessKey>, b: State, meB: WitnessKey, peersB: seq<WitnessKey>, now: int)
    requires Latest(a).Some? && Compared(b, meB, peersB, Latest(a).value, now).Some?
    ensures var (a1, b1, o) := Round(a, meA, peersA, b, meB, peersB, Latest(a), now);
      (a1, o) == Gossiped(a, meA, peersA, Compared(b, meB, peersB, Latest(a).value, now).value, now)
  {
  }

  /** What a round makes of two books under any names: noticed exactly if they do not agree; a proof unless my own receipt there bears another name than the one compared. */
  ghost predicate FindsOutOrFails(a: State, meA: WitnessKey, peersA: seq<WitnessKey>, bookA: seq<Entry>,
      b: State, meB: WitnessKey, peersB: seq<WitnessKey>, bookB: seq<Entry>, m: int, now: int)
    requires m < |bookA| && m < |bookB| && Latest(a).Some? && Compared(b, meB, peersB, Latest(a).value, now).Some?
  {
    var (a1, b1, o) := Round(a, meA, peersA, b, meB, peersB, Latest(a), now);
    var c := Compared(b, meB, peersB, Latest(a).value, now).value;
    && (o.Detected? <==> !AgreeTo(bookA, bookB, m) && !NamedElsewhere(a, c))
    && (o.Failed? <==> !AgreeTo(bookA, bookB, m) && NamedElsewhere(a, c))
    && (o.Detected? ==> a1.halted.Some? && forall keys :: Introduced(keys, meA) && Introduced(keys, meB) ==> VerifyProof(o.proof, keys))
  }

  lemma RoundUnderAnyNames(
      a: State, meA: WitnessKey, peersA: seq<WitnessKey>, viewA: seq<Entry>, bookA: seq<Entry>,
      b: State, meB: WitnessKey, peersB: seq<WitnessKey>, viewB: seq<Entry>, bookB: seq<Entry>, now: int)
    requires Voices(a, meA, viewA) && Voices(b, meB, viewB) && [] < viewA <= bookA && [] < viewB <= bookB
    requires Introduced(peersA, meB)
    ensures Latest(a).Some? && Latest(b).Some? && Compared(b, meB, peersB, Latest(a).value, now).Some?
    ensures var m := Min(Latest(a).value.seqNo, Latest(b).value.seqNo);
      0 <= m < |bookA| && m < |bookB| && FindsOutOrFails(a, meA, peersA, bookA, b, meB, peersB, bookB, m, now)
  {
    LatestIsVoiced(a, meA, viewA);
    LatestIsVoiced(b, meB, viewB);
    var mine := Latest(a).value;
    ComparedStands(b, meB, peersB, viewB, mine, now);
    var c := Compared(b, meB, peersB, mine, now).value;
    RoundCompares(a, meA, peersA, b, meB, peersB, now);
    GossipedUnderAnyName(a, meA, viewA, peersA, meB, c, now);
    DiffersExactly(viewA, bookA, viewB, bookB, c);
  }

  lemma DiffersExactly(viewA: seq<Entry>, bookA: seq<Entry>, viewB: seq<Entry>, bookB: seq<Entry>, c: Receipt)
    requires Book(viewA) && Book(viewB) && viewA <= bookA && viewB <= bookB
    requires 0 <= c.seqNo < |viewA| && c.seqNo < |viewB| && c.hash == viewB[c.seqNo].hash
    ensures Differs(viewA, c) <==> !AgreeTo(bookA, bookB, c.seqNo)
  {
    HashesTellHistories(viewA, viewB, c.seqNo);
    assert forall i :: 0 <= i <= c.seqNo ==> viewA[i] == bookA[i] && viewB[i] == bookB[i];
  }

  // ---------------------------------------------------------------- whole histories

  /** The venue answers from one book, by a name of its choice each time; genuine receipts heard name some venue; the rest is arbitrary. */
  ghost predicate OneBookAnyNames(s: State, me: WitnessKey, peers: seq<WitnessKey>, hs: seq<Happening>, book: seq<Entry>)
    decreases |hs|
  {
    hs == [] || (
      && (hs[0].Polls? && s.halted.None? ==> ServedFrom(hs[0].poll.book, s.lastCosigned, hs[0].poll.answer) && hs[0].poll.book <= book && hs[0].poll.answer.venueId != "")
      && (hs[0].Hears? && KnownPeer(peers, hs[0].receipt) ==> hs[0].receipt.venueId != "")
      && OneBookAnyNames(Met(s, me, peers, hs[0]), me, peers, hs[1..], book))
  }

  lemma CosigningVoices(s: State, t: State, me: WitnessKey, book: seq<Entry>, r: Receipt)
    requires Follows(t, book) && ReceiptsStand(t, me) && book != [] && t.receipts == s.receipts + [r]
    requires r.venueId != "" && forall q :: q in s.receipts ==> q.venueId != ""
    ensures Voices(t, me, book)
  {
  }

  lemma PollingKeepsVoice(s: State, me: WitnessKey, view: seq<Entry>, book: seq<Entry>, p: PollStep) returns (next: seq<Entry>)
    requires Voices(s, me, view) && view <= book
    requires s.halted.None? ==> ServedFrom(p.book, s.lastCosigned, p.answer) && p.book <= book && p.answer.venueId != ""
    ensures Voices(Polled(s, me, p.answer, p.at, p.now).0, me, next) && next <= book
  {
    var (t, o) := Polled(s, me, p.answer, p.at, p.now);
    next := if o.Cosigned? then p.book else view;
    if s.halted.None? {
      PollCosignsExactlyExtensions(s, view, me, p.book, p.answer, p.at, p.now);
      if o.Cosigned? {
        PollKeepsReceipts(s, view, me, p.book, p.answer, p.at, p.now);
        PollIssues(s, me, p.answer, p.at, p.now);
        CosigningVoices(s, t, me, p.book, o.receipt);
      } else {
        SameVoice(s, t, me, view);
      }
    }
  }

  lemma AskingKeepsVoice(s: State, me: WitnessKey, view: seq<Entry>, n: int, at: int)
    requires Voices(s, me, view)
    ensures Voices(ReceiptedFor(s, me, n, at).0, me, view)
  {
    var (t, r) := ReceiptedFor(s, me, n, at);
    if t != s { SignedIsVoiced(s, me, view, r.value); }
  }

  lemma MeetingKeepsVoice(s: State, me: WitnessKey, peers: seq<WitnessKey>, view: seq<Entry>, book: seq<Entry>, h: Happening) returns (next: seq<Entry>)
    requires Voices(s, me, view) && view <= book
    requires h.Polls? && s.halted.None? ==> ServedFrom(h.poll.book, s.lastCosigned, h.poll.answer) && h.poll.book <= book && h.poll.answer.venueId != ""
    requires h.Hears? && KnownPeer(peers, h.receipt) ==> h.receipt.venueId != ""
    ensures Voices(Met(s, me, peers, h), me, next) && next <= book
  {
    next := view;
    match h {
      case Polls(p) => next := PollingKeepsVoice(s, me, view, book, p);
      case Hears(r, at) => HearingKeepsVoice(s, me, view, peers, r, at);
      case IsAsked(n, at) => AskingKeepsVoice(s, me, view, n, at);
      case IsLodged(item, at) =>
        LodgingSaysNothing(s, item, at);
        SameVoice(s, Watched(s, item, at), me, view);
      case IsShown(proof) => SameVoice(s, Met(s, me, peers, h), me, view);
      case IsTold(b) => SameVoice(s, Met(s, me, peers, h), me, view);
    }
  }

  lemma {:induction false} EveryRunKeepsVoice(s: State, me: WitnessKey, peers: seq<WitnessKey>, view: seq<Entry>, book: seq<Entry>, hs: seq<Happening>)
    returns (last: seq<Entry>)
    requires Voices(s, me, view) && view <= book && OneBookAnyNames(s, me, peers, hs, book)
    ensures Voices(RunHappenings(s, me, peers, hs), me, last) && last <= book
    decreases |hs|
  {
    if hs == [] {
      last := view;
    } else {
      var next := MeetingKeepsVoice(s, me, peers, view, book, hs[0]);
      last := EveryRunKeepsVoice(Met(s, me, peers, hs[0]), me, peers, next, book, hs[1..]);
    }
  }

  lemma FromAnyNames(me: WitnessKey, peers: seq<WitnessKey>, book: seq<Entry>, hs: seq<Happening>) returns (view: seq<Entry>)
    requires OneBookAnyNames(Empty, me, peers, hs, book) && RunHappenings(Empty, me, peers, hs).receipts != []
    ensures Voices(RunHappenings(Empty, me, peers, hs), me, view) && [] < view <= book
  {
    assert Book([]);
    view := EveryRunKeepsVoice(Empty, me, peers, [], book, hs);
  }

  /**
   A venue that keeps two books and calls itself by any names at any time. After any histories of two witnesses, one
   round of gossip notices exactly the differences up to the lower of their latest receipts: it makes a proof anybody
   can verify, or, exactly if the first's own receipt for that position bears another name than the receipt compared,
   fails without one.
   */
  lemma HistoriesUnderAnyNamesAreFoundOutOrFail(
      meA: WitnessKey, peersA: seq<WitnessKey>, bookA: seq<Entry>, historyA: seq<Happening>,
      meB: WitnessKey, peersB: seq<WitnessKey>, bookB: seq<Entry>, historyB: seq<Happening>, now: int)
    requires Introduced(peersA, meB)
    requires OneBookAnyNames(Empty, meA, peersA, historyA, bookA) && RunHappenings(Empty, meA, peersA, historyA).receipts != []
    requires OneBookAnyNames(Empty, meB, peersB, historyB, bookB) && RunHappenings(Empty, meB, peersB, historyB).receipts != []
    ensures var a, b := RunHappenings(Empty, meA, peersA, historyA), RunHappenings(Empty, meB, peersB, historyB);
      && Latest(a).Some? && Latest(b).Some? && Compared(b, meB, peersB, Latest(a).value, now).Some?
      && var m := Min(Latest(a).value.seqNo, Latest(b).value.seqNo);
         0 <= m < |bookA| && m < |bookB| && FindsOutOrFails(a, meA, peersA, bookA, b, meB, peersB, bookB, m, now)
  {
    var viewA := FromAnyNames(meA, peersA, bookA, historyA);
    var viewB := FromAnyNames(meB, peersB, bookB, historyB);
    RoundUnderAnyNames(RunHappenings(Empty, meA, peersA, historyA), meA, peersA, viewA, bookA,
      RunHappenings(Empty, meB, peersB, historyB), meB, peersB, viewB, bookB, now);
  }
}
