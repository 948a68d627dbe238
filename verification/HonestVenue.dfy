/**
 What an honest venue can be accused of. One append-only ledger, any number of honest witnesses, every
 interleaving of their steps, and anybody at all lodging promises and reporting broken ones.
 */
module HonestVenue {
  import opened Wrappers
  import opened Chain
  import opened ChainTheorems
  import opened Witness
  import opened WitnessCore
  import opened WitnessTheorems
  import opened GossipTheorems

  datatype Node = Node(me: WitnessKey, peers: seq<WitnessKey>, s: State, polledAt: int)

  /** The venue's one book and the promises it has given; the clock; the witnesses by name. */
  datatype Sys = Sys(venue: string, book: seq<Entry>, now: int, promised: set<Promise>, nodes: map<string, Node>)

  /** A poll reads the head when the book has `read` entries, the slice at some moment, and signs later. */
  datatype Step =
    | Tick(t: int)
    | AppendEntry(typ: EntryType, payload: Payload, ts: int, key: KeyPair)
    | GivePromise(p: Promise)
    | Poll(w: string, read: nat, a: Answer, checkedAt: int)
    | Gossip(w: string, r: Receipt)
    | Ask(w: string, n: int)
    | Watch(w: string, item: Item, checkedAt: int)
    | Present(w: string, proof: EquivocationProof)
    | Report(w: string, b: Broken)

  predicate OnBook(book: seq<Entry>, noticeHash: string) {
    exists i :: 0 <= i < |book| && Noted(book[i]) && book[i].payload.noticeHash.value == noticeHash
  }

  /** Every promise whose time has come has its entry. */
  ghost predicate KeepsPromises(sys: Sys, t: int) {
    forall p :: p in sys.promised && t > p.includeBy ==> OnBook(sys.book, p.noticeHash)
  }

  /** Nobody signs for a witness but the witness. */
  ghost predicate Unforged(sys: Sys, r: Receipt) {
    forall id :: id in sys.nodes && r.signedBy == Some(sys.nodes[id].me.x) && r.witnessId == id ==> r in sys.nodes[id].s.receipts
  }

  function Height(s: State): int {
    if s.lastCosigned.Some? then s.lastCosigned.value.seqNo + 1 else 0
  }

  /** The head of the book as it was at some moment since the witness last verified it, and a slice of it as it was at some moment. */
  ghost predicate ReadFrom(sys: Sys, s: State, read: nat, a: Answer) {
    Height(s) <= read && HeadFrom(sys.book, read, a) && a.venueId == sys.venue && exists m :: SliceFrom(sys.book, s.lastCosigned, m, a)
  }

  /** Both of one moment. */
  ghost predicate Snapshot(book: seq<Entry>, last: Option<Head>, read: nat, a: Answer) { SliceFrom(book, last, read, a) }

  /** What may happen next. Receipts are arbitrary up to forgery, promises and reports altogether; time passes only with promises kept. */
  ghost predicate Enabled(sys: Sys, step: Step) {
    match step
    case Tick(t) => t >= sys.now && KeepsPromises(sys, t)
    case AppendEntry(_, _, _, _) => true
    case GivePromise(p) => p.includeBy >= sys.now
    case Poll(w, read, a, _) => w in sys.nodes && (a.Unreachable? || ReadFrom(sys, sys.nodes[w].s, read, a))
    case Gossip(w, r) => w in sys.nodes && Unforged(sys, r)
    case Ask(w, _) => w in sys.nodes
    case Watch(w, _, _) => w in sys.nodes
    case Present(w, proof) => w in sys.nodes && Unforged(sys, proof.a) && Unforged(sys, proof.b)
    case Report(w, _) => w in sys.nodes
  }

  function With(sys: Sys, w: string, s: State): Sys
    requires w in sys.nodes
  {
    sys.(nodes := sys.nodes[w := sys.nodes[w].(s := s)])
  }

  ghost function Next(sys: Sys, step: Step): Sys
    requires Enabled(sys, step)
  {
    match step
    case Tick(t) => sys.(now := t)
    case AppendEntry(typ, payload, ts, key) => sys.(book := sys.book + [Seal(|sys.book|, ts, typ, payload, HeadHash(sys.book), key)])
    case GivePromise(p) => sys.(promised := sys.promised + {p})
    case Poll(w, _, a, checkedAt) =>
      var n := sys.nodes[w];
      var (t, o) := Polled(n.s, n.me, a, sys.now, checkedAt);
      sys.(nodes := sys.nodes[w := n.(s := t, polledAt := if o.Cosigned? then sys.now else n.polledAt)])
    case Gossip(w, r) => With(sys, w, Gossiped(sys.nodes[w].s, sys.nodes[w].me, sys.nodes[w].peers, r, sys.now).0)
    case Ask(w, n) => With(sys, w, ReceiptedFor(sys.nodes[w].s, sys.nodes[w].me, n, sys.now).0)
    case Watch(w, item, checkedAt) => With(sys, w, Watched(sys.nodes[w].s, item, checkedAt))
    case Present(w, proof) => With(sys, w, ProofReceived(sys.nodes[w].s, sys.nodes[w].me, sys.nodes[w].peers, proof).0)
    case Report(w, b) => With(sys, w, BrokenReceived(sys.nodes[w].s, b))
  }

  // ---------------------------------------------------------------- what every state keeps

  /** No equivocation; halted over broken promises alone. */
  predicate Blameless(s: State) {
    s.equivocations == [] && (s.halted.Some? <==> s.broken != [])
  }

  ghost predicate PeersKnown(sys: Sys, peers: seq<WitnessKey>) {
    forall k :: k in peers ==> k.witnessId in sys.nodes && sys.nodes[k.witnessId].me == k
  }

  /** The witness has verified a beginning of the one book, and halts over nothing but promises. */
  ghost predicate Knows(s: State, me: WitnessKey, venue: string, book: seq<Entry>) {
    && 0 <= Height(s) <= |book|
    && Witnesses(s, me, venue, book[..Height(s)])
    && Blameless(s)
  }

  ghost predicate UprightAt(sys: Sys, w: string)
    requires w in sys.nodes
  {
    var n := sys.nodes[w];
    n.me.witnessId == w && PeersKnown(sys, n.peers) && Knows(n.s, n.me, sys.venue, sys.book)
  }

  ghost predicate Upright(sys: Sys) {
    && Book(sys.book) && sys.book != []
    && KeepsPromises(sys, sys.now)
    && forall w :: w in sys.nodes ==> UprightAt(sys, w)
  }

  // ---------------------------------------------------------------- one step

  lemma {:induction false} FindKeyAmong(keys: seq<WitnessKey>, id: string)
    ensures FindKey(keys, id).Some? ==> FindKey(keys, id).value in keys && FindKey(keys, id).value.witnessId == id
  {
    if keys != [] && keys[0].witnessId != id { FindKeyAmong(keys[1..], id); }
  }

  /** A genuine receipt of an honest witness shows the book. */
  lemma ReceiptShowsBook(sys: Sys, w: string, r: Receipt)
    requires Upright(sys) && w in sys.nodes && r in sys.nodes[w].s.receipts
    ensures 0 <= r.seqNo < |sys.book| && r.hash == sys.book[r.seqNo].hash
  {
    assert UprightAt(sys, w);
  }

  lemma AgreementIsOnlyNoted(s: State, me: WitnessKey, peers: seq<WitnessKey>, r: Receipt, now: int)
    requires KnownPeer(peers, r) && r.seqNo in s.seen ==> s.seen[r.seqNo] == r.hash
    ensures var t := Gossiped(s, me, peers, r, now).0; t == s.(peerReceipts := t.peerReceipts)
  {
  }

  lemma PeerShowsBook(sys: Sys, w: string, r: Receipt)
    requires Upright(sys) && w in sys.nodes && Unforged(sys, r) && KnownPeer(sys.nodes[w].peers, r)
    ensures 0 <= r.seqNo < |sys.book| && r.hash == sys.book[r.seqNo].hash
  {
    var peers := sys.nodes[w].peers;
    assert UprightAt(sys, w);
    FindKeyAmong(peers, r.witnessId);
    assert FindKey(peers, r.witnessId).value in peers;
    ReceiptShowsBook(sys, r.witnessId, r);
  }

  lemma GossipAgrees(sys: Sys, w: string, r: Receipt)
    requires Upright(sys) && w in sys.nodes && Unforged(sys, r)
    ensures var n := sys.nodes[w];
      var t := Gossiped(n.s, n.me, n.peers, r, sys.now).0;
      t == n.s.(peerReceipts := t.peerReceipts)
  {
    var n := sys.nodes[w];
    assert UprightAt(sys, w);
    if KnownPeer(n.peers, r) { PeerShowsBook(sys, w, r); }
    AgreementIsOnlyNoted(n.s, n.me, n.peers, r, sys.now);
  }

  lemma NoProofVerifies(sys: Sys, w: string, p: EquivocationProof)
    requires Upright(sys) && w in sys.nodes && Unforged(sys, p.a) && Unforged(sys, p.b)
    ensures !VerifyProof(p, sys.nodes[w].peers + [sys.nodes[w].me])
  {
    var n := sys.nodes[w];
    var keys := n.peers + [n.me];
    assert UprightAt(sys, w);
    FindKeyAmong(keys, p.a.witnessId);
    FindKeyAmong(keys, p.b.witnessId);
    if VerifyProof(p, keys) {
      ReceiptShowsBook(sys, p.a.witnessId, p.a);
      ReceiptShowsBook(sys, p.b.witnessId, p.b);
    }
  }

  /** Settling promises keeps what was verified, and halts exactly over promises. */
  lemma CheckingKeepsBlameless(s: State, r: Receipt, now: int)
    requires Blameless(s)
    ensures var t := CheckedWatch(s, r, now);
      && Blameless(t) && t.lastCosigned == s.lastCosigned && t.seen == s.seen && t.noticesSeen == s.noticesSeen && t.receipts == s.receipts
      && t.broken == s.broken + FirstBroken(s.watching, s.noticesSeen, r, now)
      && t.watching == StillWatching(s.watching, s.noticesSeen, r, now)
  {
  }

  lemma WatchKnows(s: State, me: WitnessKey, venue: string, book: seq<Entry>, item: Item, checkedAt: int)
    requires Knows(s, me, venue, book)
    ensures Knows(Watched(s, item, checkedAt), me, venue, book)
  {
    var u := Lodged(s, item);
    if u.receipts != [] { CheckingKeepsBlameless(u, u.receipts[|u.receipts| - 1], checkedAt); }
    LodgingSaysNothing(s, item, checkedAt);
    SameWord(s, Watched(s, item, checkedAt), me, venue, book[..Height(s)]);
  }

  lemma AskKnows(s: State, me: WitnessKey, venue: string, book: seq<Entry>, n: int, at: int)
    requires Knows(s, me, venue, book)
    ensures Knows(ReceiptedFor(s, me, n, at).0, me, venue, book)
  {
    AskingKeepsWitness(s, me, venue, book[..Height(s)], n, at);
  }

  lemma ReportKnows(s: State, me: WitnessKey, venue: string, book: seq<Entry>, b: Broken)
    requires Knows(s, me, venue, book)
    ensures Knows(BrokenReceived(s, b), me, venue, book)
  {
    SameWord(s, BrokenReceived(s, b), me, venue, book[..Height(s)]);
  }

  lemma Cosignature(s: State, me: WitnessKey, a: Answer, at: int, checkedAt: int) returns (c: State)
    requires Polled(s, me, a, at, checkedAt).1.Cosigned?
    ensures var (t, o) := Polled(s, me, a, at, checkedAt);
      && t == CheckedWatch(c, o.receipt, checkedAt) && t.noticesSeen == c.noticesSeen
      && c.watching == s.watching && c.broken == s.broken && c.forks == s.forks && c.equivocations == s.equivocations && c.halted == s.halted
      && o.receipt.at == at && s.halted.None?
  {
    c := Cosign(s, a.head, Examine(s.lastCosigned, a.head, a.entries).value, Polled(s, me, a, at, checkedAt).1.receipt);
  }

  /** A cosigning poll of a beginning of the book: the witness then knows all of that. */
  lemma CosigningPoll(s: State, me: WitnessKey, venue: string, view: seq<Entry>, book: seq<Entry>, a: Answer, at: int, checkedAt: int)
    requires Witnesses(s, me, venue, view) && Blameless(s) && ServedFrom(book, s.lastCosigned, a) && a.venueId == venue
    requires Polled(s, me, a, at, checkedAt).1.Cosigned?
    ensures var t := Polled(s, me, a, at, checkedAt).0;
      Witnesses(t, me, venue, book) && Blameless(t) && Height(t) == |book|
  {
    PollCosignsExactlyExtensions(s, view, me, book, a, at, checkedAt);
    PollKeepsReceipts(s, view, me, book, a, at, checkedAt);
    PollIssues(s, me, a, at, checkedAt);
    var c := Cosignature(s, me, a, at, checkedAt);
    CheckingKeepsBlameless(c, Polled(s, me, a, at, checkedAt).1.receipt, checkedAt);
  }

  lemma PrefixExtends(book: seq<Entry>, n: nat, m: nat)
    requires Book(book) && n <= m <= |book|
    ensures Book(book[..m]) && Extends(book[..m], book[..n])
  {
    PrefixIsBook(book, m);
  }

  lemma ServedAtOnce(book: seq<Entry>, last: Option<Head>, read: nat, a: Answer)
    requires Book(book) && HeadFrom(book, read, a)
    ensures Snapshot(book, last, read, a) <==> ServedFrom(book[..read], last, a)
  {
    PrefixIsBook(book, read);
  }

  /** Slices of two moments are two slices, if the book has grown past the asked position by either. */
  lemma SlicesDiffer(book: seq<Entry>, last: Option<Head>, read: nat, m: nat, a: Answer)
    requires Book(book) && read <= |book| && SliceFrom(book, last, m, a) && (if last.Some? then 0 <= last.value.seqNo < read else 0 < read)
    ensures Snapshot(book, last, read, a) <==> m == read
  {
    var from := if last.Some? then last.value.seqNo else 0;
    PrefixIsBook(book, read);
    PrefixIsBook(book, m);
    CutAt(book[..read], 0, from);
    CutAt(book[..m], 0, from);
    assert |From(book[..m], from)| == (if from < m then m - from else 0) && |From(book[..read], from)| == read - from;
    assert |a.entries| == |multiset(a.entries)| == |multiset(From(book[..m], from))|;
    assert Snapshot(book, last, read, a) ==> |multiset(a.entries)| == |multiset(From(book[..read], from))|;
  }

  lemma PollKnows(s: State, me: WitnessKey, venue: string, book: seq<Entry>, read: nat, m: nat, a: Answer, at: int, checkedAt: int)
    requires Knows(s, me, venue, book) && Book(book)
    requires Height(s) <= read && HeadFrom(book, read, a) && SliceFrom(book, s.lastCosigned, m, a) && a.venueId == venue
    ensures var (t, o) := Polled(s, me, a, at, checkedAt);
      && Knows(t, me, venue, book)
      && (o.Cosigned? <==> s.halted.None? && a.accepted && read > Height(s) && Snapshot(book, s.lastCosigned, read, a))
      && (o.ForkSeen? <==> s.halted.None? && read > Height(s) && !Snapshot(book, s.lastCosigned, read, a))
      && (o.Cosigned? ==> Height(t) == read && t.forks == s.forks)
      && (!o.Cosigned? ==> t == s.(forks := t.forks))
      && (if o.ForkSeen? then |t.forks| == |s.forks| + 1 else t.forks == s.forks)
  {
    var view := book[..Height(s)];
    if s.halted.None? && read > Height(s) {
      SlicesDiffer(book, s.lastCosigned, read, m, a);
      TornReadIsAFork(s, view, me, book, read, m, a, at, checkedAt);
      if m == read { SnapshotKnows(s, me, venue, book, read, a, at, checkedAt); } else { ForkKnows(s, me, venue, book, a, at, checkedAt); }
    }
  }

  lemma ForkKnows(s: State, me: WitnessKey, venue: string, book: seq<Entry>, a: Answer, at: int, checkedAt: int)
    requires Knows(s, me, venue, book) && Polled(s, me, a, at, checkedAt).1.ForkSeen?
    ensures var t := Polled(s, me, a, at, checkedAt).0;
      Knows(t, me, venue, book) && t == s.(forks := t.forks) && |t.forks| == |s.forks| + 1
  {
    SameWord(s, Polled(s, me, a, at, checkedAt).0, me, venue, book[..Height(s)]);
  }

  lemma SnapshotKnows(s: State, me: WitnessKey, venue: string, book: seq<Entry>, read: nat, a: Answer, at: int, checkedAt: int)
    requires Knows(s, me, venue, book) && Book(book) && s.halted.None?
    requires Height(s) < read && HeadFrom(book, read, a) && Snapshot(book, s.lastCosigned, read, a) && a.venueId == venue
    ensures var (t, o) := Polled(s, me, a, at, checkedAt);
      && Knows(t, me, venue, book) && (o.Cosigned? <==> a.accepted) && !o.ForkSeen?
      && (o.Cosigned? ==> Height(t) == read)
      && (!o.Cosigned? ==> t == s) && t.forks == s.forks
  {
    PrefixExtends(book, Height(s), read);
    ServedAtOnce(book, s.lastCosigned, read, a);
    PollCosignsExactlyExtensions(s, book[..Height(s)], me, book[..read], a, at, checkedAt);
    if Polled(s, me, a, at, checkedAt).1.Cosigned? {
      CosigningPoll(s, me, venue, book[..Height(s)], book[..read], a, at, checkedAt);
      var c := Cosignature(s, me, a, at, checkedAt);
    }
  }

  lemma BookGrows(book: seq<Entry>, e: Entry, h: string)
    requires OnBook(book, h)
    ensures OnBook(book + [e], h)
  {
    var i :| 0 <= i < |book| && Noted(book[i]) && book[i].payload.noticeHash.value == h;
    assert (book + [e])[i] == book[i];
  }

  lemma StepKeepsVenue(sys: Sys, step: Step)
    requires Upright(sys) && Enabled(sys, step)
    ensures var after := Next(sys, step); Book(after.book) && after.book != [] && KeepsPromises(after, after.now)
  {
    var after := Next(sys, step);
    if step.AppendEntry? {
      AppendKeepsBook(sys.book, step.typ, step.payload, step.ts, step.key);
      forall p | p in after.promised && after.now > p.includeBy ensures OnBook(after.book, p.noticeHash) {
        BookGrows(sys.book, after.book[|sys.book|], p.noticeHash);
      }
    }
  }

  predicate Acts(step: Step) { step.Poll? || step.Gossip? || step.Ask? || step.Watch? || step.Present? || step.Report? }

  predicate SameIdentity(a: Node, b: Node) { a.me == b.me && a.peers == b.peers }

  /** What a step changes: the acting witness's state, the clock, the book or the promises; nobody's name or peers. */
  lemma StepFrame(sys: Sys, step: Step)
    requires Enabled(sys, step)
    ensures var after := Next(sys, step);
      && after.venue == sys.venue && sys.book <= after.book && sys.promised <= after.promised
      && (after.now == sys.now || (step.Tick? && after.now >= sys.now))
      && (forall p :: p in after.promised && p !in sys.promised ==> p.includeBy >= sys.now)
      && after.nodes.Keys == sys.nodes.Keys
      && (Acts(step) ==> step.w in sys.nodes && after.book == sys.book && after.promised == sys.promised && after.now == sys.now)
      && (forall id :: id in sys.nodes ==> SameIdentity(after.nodes[id], sys.nodes[id]) && (after.nodes[id] == sys.nodes[id] || (Acts(step) && id == step.w)))
  {
  }

  lemma ActorKnows(sys: Sys, step: Step)
    requires Upright(sys) && Enabled(sys, step) && Acts(step)
    ensures Knows(Next(sys, step).nodes[step.w].s, sys.nodes[step.w].me, sys.venue, sys.book)
  {
    var n := sys.nodes[step.w];
    assert UprightAt(sys, step.w);
    match step {
      case Poll(w, read, a, checkedAt) =>
        if a.Served? {
          var m :| SliceFrom(sys.book, n.s.lastCosigned, m, a);
          PollKnows(n.s, n.me, sys.venue, sys.book, read, m, a, sys.now, checkedAt);
        }
      case Gossip(w, r) =>
        GossipAgrees(sys, w, r);
        SameWord(n.s, Gossiped(n.s, n.me, n.peers, r, sys.now).0, n.me, sys.venue, sys.book[..Height(n.s)]);
      case Ask(w, k) => AskKnows(n.s, n.me, sys.venue, sys.book, k, sys.now);
      case Watch(w, item, checkedAt) => WatchKnows(n.s, n.me, sys.venue, sys.book, item, checkedAt);
      case Present(w, proof) => NoProofVerifies(sys, w, proof);
      case Report(w, b) => ReportKnows(n.s, n.me, sys.venue, sys.book, b);
    }
  }

  lemma LongerBookIsKnown(s: State, me: WitnessKey, venue: string, book: seq<Entry>, longer: seq<Entry>)
    requires Knows(s, me, venue, book) && book <= longer
    ensures Knows(s, me, venue, longer)
  {
    assert longer[..Height(s)] == book[..Height(s)];
  }

  lemma StepKeepsUprightAt(sys: Sys, step: Step, w: string)
    requires Upright(sys) && Enabled(sys, step) && w in Next(sys, step).nodes
    ensures UprightAt(Next(sys, step), w)
  {
    StepFrame(sys, step);
    assert UprightAt(sys, w);
    if Acts(step) && w == step.w {
      ActorKnows(sys, step);
    } else {
      LongerBookIsKnown(sys.nodes[w].s, sys.nodes[w].me, sys.venue, sys.book, Next(sys, step).book);
    }
  }

  lemma StepKeepsUpright(sys: Sys, step: Step)
    requires Upright(sys) && Enabled(sys, step)
    ensures Upright(Next(sys, step))
  {
    StepKeepsVenue(sys, step);
    forall w | w in Next(sys, step).nodes ensures UprightAt(Next(sys, step), w) {
      StepKeepsUprightAt(sys, step, w);
    }
  }

  // ---------------------------------------------------------------- what one step accuses of

  /** Not among these entries, and past its time by the receipt and by the clock. */
  predicate Missed(view: seq<Entry>, p: Promise, at: int, checkedAt: int) {
    !OnBook(view, p.noticeHash) && at > p.includeBy && checkedAt > p.includeBy
  }

  predicate HasBroken(bs: seq<Broken>, p: Promise) { exists b :: b in bs && b.promise == p }

  /**
   This step finds promise `p` broken: a poll that verifies new entries, or a lodging with some receipt signed, misses
   it among the promises watched; or somebody reports it, and no other of that notice is held.
   */
  ghost predicate Accuses(sys: Sys, step: Step, w: string, p: Promise)
    requires w in sys.nodes
  {
    var s := sys.nodes[w].s;
    match step
    case Poll(v, read, a, checkedAt) =>
      && v == w && s.halted.None? && a.Served? && a.accepted && Height(s) < read <= |sys.book| && Snapshot(sys.book, s.lastCosigned, read, a)
      && p in s.watching && Missed(sys.book[..read], p, sys.now, checkedAt)
    case Watch(v, item, checkedAt) =>
      && v == w && Latest(s).Some? && 0 <= Height(s) <= |sys.book|
      && p in Lodged(s, item).watching && Missed(sys.book[..Height(s)], p, Latest(s).value.at, checkedAt)
    case Report(v, b) => v == w && b.promise == p && !HoldsBroken(s.broken, p.noticeHash)
    case _ => false
  }

  lemma {:induction false} FirstBrokenHas(ps: seq<Promise>, seen: map<string, int>, r: Receipt, now: int, p: Promise)
    ensures HasBroken(FirstBroken(ps, seen, r, now), p) <==> p in ps && Overdue(p, seen, r, now)
  {
    if ps != [] {
      FirstBrokenHas(ps[1..], seen, r, now, p);
      var first := if Overdue(ps[0], seen, r, now) then [Broken(ps[0], r, now)] else [];
      HasBrokenTogether(first, FirstBroken(ps[1..], seen, r, now), p);
      if p == ps[0] && first != [] { assert first[0] in first; }
    }
  }

  lemma HasBrokenTogether(a: seq<Broken>, b: seq<Broken>, p: Promise)
    ensures HasBroken(a + b, p) <==> HasBroken(a, p) || HasBroken(b, p)
  {
    if HasBroken(a, p) { var x :| x in a && x.promise == p; assert x in a + b; }
    if HasBroken(b, p) { var x :| x in b && x.promise == p; assert x in a + b; }
  }

  /** What is on the witness's book is what it has noticed. */
  lemma NoticedExactlyOnBook(s: State, book: seq<Entry>, noticeHash: string)
    requires Follows(s, book)
    ensures noticeHash in s.noticesSeen <==> OnBook(book, noticeHash)
  {
    if noticeHash in s.noticesSeen {
      assert Noted(book[s.noticesSeen[noticeHash]]);
    }
  }

  lemma CheckAccuses(s: State, view: seq<Entry>, r: Receipt, now: int, p: Promise)
    requires Blameless(s) && forall h :: h in s.noticesSeen <==> OnBook(view, h)
    ensures HasBroken(CheckedWatch(s, r, now).broken, p) <==> HasBroken(s.broken, p) || (p in s.watching && Missed(view, p, r.at, now))
  {
    CheckingKeepsBlameless(s, r, now);
    FirstBrokenHas(s.watching, s.noticesSeen, r, now, p);
    HasBrokenTogether(s.broken, FirstBroken(s.watching, s.noticesSeen, r, now), p);
  }

  lemma LodgingKeeps(s: State, item: Item)
    requires Blameless(s)
    ensures var u := Lodged(s, item); Blameless(u) && u.noticesSeen == s.noticesSeen && u.broken == s.broken && u.receipts == s.receipts
  {
  }

  lemma LodgingAccuses(s: State, view: seq<Entry>, item: Item, checkedAt: int, p: Promise)
    requires Blameless(s) && forall h :: h in s.noticesSeen <==> OnBook(view, h)
    ensures HasBroken(Watched(s, item, checkedAt).broken, p) <==>
      HasBroken(s.broken, p) || (Latest(s).Some? && p in Lodged(s, item).watching && Missed(view, p, Latest(s).value.at, checkedAt))
  {
    LodgingKeeps(s, item);
    if Latest(s).Some? { CheckAccuses(Lodged(s, item), view, Latest(s).value, checkedAt, p); }
  }

  lemma WatchAccuses(s: State, me: WitnessKey, venue: string, book: seq<Entry>, item: Item, checkedAt: int, p: Promise)
    requires Knows(s, me, venue, book)
    ensures HasBroken(Watched(s, item, checkedAt).broken, p) <==>
      HasBroken(s.broken, p) || (Latest(s).Some? && p in Lodged(s, item).watching && Missed(book[..Height(s)], p, Latest(s).value.at, checkedAt))
  {
    var view := book[..Height(s)];
    forall h ensures h in s.noticesSeen <==> OnBook(view, h) { NoticedExactlyOnBook(s, view, h); }
    LodgingAccuses(s, view, item, checkedAt, p);
  }

  lemma PollAccuses(s: State, me: WitnessKey, venue: string, book: seq<Entry>, read: nat, m: nat, a: Answer, at: int, checkedAt: int, p: Promise)
    requires Knows(s, me, venue, book) && Book(book)
    requires Height(s) <= read && HeadFrom(book, read, a) && SliceFrom(book, s.lastCosigned, m, a) && a.venueId == venue
    ensures HasBroken(Polled(s, me, a, at, checkedAt).0.broken, p) <==>
      || HasBroken(s.broken, p)
      || (s.halted.None? && a.accepted && Height(s) < read && Snapshot(book, s.lastCosigned, read, a) && p in s.watching && Missed(book[..read], p, at, checkedAt))
  {
    PollKnows(s, me, venue, book, read, m, a, at, checkedAt);
    var (t, o) := Polled(s, me, a, at, checkedAt);
    if o.Cosigned? {
      var c := Cosignature(s, me, a, at, checkedAt);
      forall h ensures h in c.noticesSeen <==> OnBook(book[..read], h) { NoticedExactlyOnBook(t, book[..read], h); }
      CheckAccuses(c, book[..read], o.receipt, checkedAt, p);
    }
  }

  lemma ReportAccuses(s: State, b: Broken, p: Promise)
    ensures HasBroken(BrokenReceived(s, b).broken, p) <==>
      HasBroken(s.broken, p) || (b.promise == p && !HoldsBroken(s.broken, p.noticeHash))
  {
    HasBrokenTogether(s.broken, [b], p);
  }

  lemma ActorAccuses(sys: Sys, step: Step, p: Promise)
    requires Upright(sys) && Enabled(sys, step) && Acts(step)
    ensures HasBroken(Next(sys, step).nodes[step.w].s.broken, p) <==> HasBroken(sys.nodes[step.w].s.broken, p) || Accuses(sys, step, step.w, p)
  {
    assert UprightAt(sys, step.w);
    var n := sys.nodes[step.w];
    match step {
      case Poll(_, read, a, checkedAt) =>
        if a.Served? {
          var m :| SliceFrom(sys.book, n.s.lastCosigned, m, a);
          PollAccuses(n.s, n.me, sys.venue, sys.book, read, m, a, sys.now, checkedAt, p);
        }
      case Gossip(w, r) => GossipAgrees(sys, w, r);
      case Ask(_, k) =>
      case Watch(_, item, checkedAt) => WatchAccuses(n.s, n.me, sys.venue, sys.book, item, checkedAt, p);
      case Present(w, proof) => NoProofVerifies(sys, w, proof);
      case Report(_, b) => ReportAccuses(n.s, b, p);
    }
  }

  /** A step records a promise as broken exactly when it accuses of it. */
  lemma StepAccuses(sys: Sys, step: Step, w: string, p: Promise)
    requires Upright(sys) && Enabled(sys, step) && w in sys.nodes
    ensures w in Next(sys, step).nodes
    ensures HasBroken(Next(sys, step).nodes[w].s.broken, p) <==> HasBroken(sys.nodes[w].s.broken, p) || Accuses(sys, step, w, p)
  {
    StepFrame(sys, step);
    if Acts(step) && step.w == w { ActorAccuses(sys, step, p); }
  }

  // ---------------------------------------------------------------- what one step takes for a fork

  /** This step is a poll that reads head and slice at different moments of a book that has grown since. */
  ghost predicate Tears(sys: Sys, step: Step, w: string)
    requires w in sys.nodes
  {
    var s := sys.nodes[w].s;
    step.Poll? && step.w == w && s.halted.None? && step.a.Served? && Height(s) < step.read && !Snapshot(sys.book, s.lastCosigned, step.read, step.a)
  }

  lemma WatchSeesNoFork(s: State, item: Item, checkedAt: int)
    ensures Watched(s, item, checkedAt).forks == s.forks
  {
  }

  lemma ActorForks(sys: Sys, step: Step)
    requires Upright(sys) && Enabled(sys, step) && Acts(step)
    ensures |Next(sys, step).nodes[step.w].s.forks| == |sys.nodes[step.w].s.forks| + if Tears(sys, step, step.w) then 1 else 0
  {
    assert UprightAt(sys, step.w);
    var n := sys.nodes[step.w];
    match step {
      case Poll(_, read, a, checkedAt) =>
        if a.Served? {
          var m :| SliceFrom(sys.book, n.s.lastCosigned, m, a);
          PollKnows(n.s, n.me, sys.venue, sys.book, read, m, a, sys.now, checkedAt);
        }
      case Gossip(w, r) => GossipAgrees(sys, w, r);
      case Ask(_, k) =>
      case Watch(_, item, checkedAt) => WatchSeesNoFork(n.s, item, checkedAt);
      case Present(w, proof) => NoProofVerifies(sys, w, proof);
      case Report(_, b) =>
    }
  }

  /** A step records a fork exactly when it is a torn read. */
  lemma StepForks(sys: Sys, step: Step, w: string)
    requires Upright(sys) && Enabled(sys, step) && w in sys.nodes
    ensures w in Next(sys, step).nodes
    ensures |Next(sys, step).nodes[w].s.forks| == |sys.nodes[w].s.forks| + if Tears(sys, step, w) then 1 else 0
  {
    StepFrame(sys, step);
    if Acts(step) && step.w == w { ActorForks(sys, step); }
  }

  // ---------------------------------------------------------------- every run

  ghost predicate Agreed(nodes: map<string, Node>) {
    forall v, w, n :: v in nodes && w in nodes && n in nodes[v].s.seen && n in nodes[w].s.seen ==> nodes[v].s.seen[n] == nodes[w].s.seen[n]
  }

  ghost predicate Runs(sys: Sys, steps: seq<Step>)
    decreases |steps|
  {
    steps == [] || (Enabled(sys, steps[0]) && Runs(Next(sys, steps[0]), steps[1..]))
  }

  ghost function After(sys: Sys, steps: seq<Step>): Sys
    requires Runs(sys, steps)
    decreases |steps|
  {
    if steps == [] then sys else After(Next(sys, steps[0]), steps[1..])
  }

  /** Some step of the run accuses of `p`. */
  ghost predicate EverAccused(sys: Sys, steps: seq<Step>, w: string, p: Promise)
    requires Runs(sys, steps)
    decreases |steps|
  {
    steps != [] && ((w in sys.nodes && Accuses(sys, steps[0], w, p)) || EverAccused(Next(sys, steps[0]), steps[1..], w, p))
  }

  /** How many polls of the run were torn reads. */
  ghost function TornReads(sys: Sys, steps: seq<Step>, w: string): nat
    requires Runs(sys, steps)
    decreases |steps|
  {
    if steps == [] then 0
    else (if w in sys.nodes && Tears(sys, steps[0], w) then 1 else 0) + TornReads(Next(sys, steps[0]), steps[1..], w)
  }

  lemma {:induction false} ForksAreTornReads(sys: Sys, steps: seq<Step>, w: string)
    requires Upright(sys) && Runs(sys, steps) && w in sys.nodes && w in After(sys, steps).nodes
    ensures |After(sys, steps).nodes[w].s.forks| == |sys.nodes[w].s.forks| + TornReads(sys, steps, w)
    decreases |steps|
  {
    if steps != [] {
      StepKeepsUpright(sys, steps[0]);
      StepForks(sys, steps[0], w);
      ForksAreTornReads(Next(sys, steps[0]), steps[1..], w);
    }
  }

  lemma UprightSystemsAgree(sys: Sys)
    requires Upright(sys)
    ensures Agreed(sys.nodes)
  {
    forall w | w in sys.nodes ensures forall n :: n in sys.nodes[w].s.seen ==> 0 <= n < |sys.book| && sys.nodes[w].s.seen[n] == sys.book[n].hash {
      assert UprightAt(sys, w);
    }
  }

  lemma {:induction false} EveryRunStaysUpright(sys: Sys, steps: seq<Step>)
    requires Upright(sys) && Runs(sys, steps)
    ensures Upright(After(sys, steps)) && After(sys, steps).nodes.Keys == sys.nodes.Keys
    decreases |steps|
  {
    if steps != [] {
      StepKeepsUpright(sys, steps[0]);
      StepFrame(sys, steps[0]);
      EveryRunStaysUpright(Next(sys, steps[0]), steps[1..]);
    }
  }

  lemma {:induction false} RecordedExactlyWhenAccused(sys: Sys, steps: seq<Step>, w: string, p: Promise)
    requires Upright(sys) && Runs(sys, steps) && w in sys.nodes && w in After(sys, steps).nodes
    ensures HasBroken(After(sys, steps).nodes[w].s.broken, p) <==> HasBroken(sys.nodes[w].s.broken, p) || EverAccused(sys, steps, w, p)
    decreases |steps|
  {
    if steps != [] {
      StepKeepsUpright(sys, steps[0]);
      StepAccuses(sys, steps[0], w, p);
      RecordedExactlyWhenAccused(Next(sys, steps[0]), steps[1..], w, p);
    }
  }

  /**
   In no run of appends, promises kept, polls however late they sign, gossip, receipts on demand, promises and notices
   lodged by anybody, proofs presented and breaches reported does any witness record an equivocation, or halt but over
   a promise; and all that know a position know the same hash for it. The forks it records are the polls that read
   head and slice at different moments, one for each. It holds a promise broken exactly when some step missed it on
   the book it verified, past its time by receipt and clock, or somebody reported it.
   */
  lemma HonestVenueIsNeverAccused(sys: Sys, steps: seq<Step>)
    requires Upright(sys) && Runs(sys, steps)
    ensures var after := After(sys, steps);
      && after.nodes.Keys == sys.nodes.Keys
      && (forall w :: w in after.nodes ==> Blameless(after.nodes[w].s))
      && Agreed(after.nodes)
      && (forall w :: w in after.nodes ==> |after.nodes[w].s.forks| == |sys.nodes[w].s.forks| + TornReads(sys, steps, w))
      && forall w, p :: w in after.nodes ==>
           (HasBroken(after.nodes[w].s.broken, p) <==> HasBroken(sys.nodes[w].s.broken, p) || EverAccused(sys, steps, w, p))
  {
    var after := After(sys, steps);
    EveryRunStaysUpright(sys, steps);
    UprightSystemsAgree(after);
    forall w | w in after.nodes ensures Blameless(after.nodes[w].s) { assert UprightAt(after, w); }
    forall w | w in after.nodes ensures |after.nodes[w].s.forks| == |sys.nodes[w].s.forks| + TornReads(sys, steps, w) {
      ForksAreTornReads(sys, steps, w);
    }
    forall w, p | w in after.nodes
      ensures HasBroken(after.nodes[w].s.broken, p) <==> HasBroken(sys.nodes[w].s.broken, p) || EverAccused(sys, steps, w, p)
    {
      RecordedExactlyWhenAccused(sys, steps, w, p);
    }
  }

  /** A founded ledger with any set of new witnesses that know one another is such a system. */
  lemma FoundedSystemIsUpright(sys: Sys, ts: int, genesis: Payload, key: KeyPair)
    requires sys.book == [Seal(0, ts, GENESIS, genesis, Zero, key)] && sys.promised == {}
    requires forall w :: w in sys.nodes ==> sys.nodes[w].s == Empty && sys.nodes[w].me.witnessId == w
    requires forall w :: w in sys.nodes ==> PeersKnown(sys, sys.nodes[w].peers)
    ensures Upright(sys)
  {
    AppendKeepsBook([], GENESIS, genesis, ts, key);
    assert [] + [Seal(0, ts, GENESIS, genesis, Zero, key)] == sys.book;
    PrefixIsBook(sys.book, 0);
  }
}
