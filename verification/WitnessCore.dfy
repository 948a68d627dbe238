/**
 The witnessing core (src/protocol/witness-core.ts): cosign only what extends the last cosigned head,
 remember every hash verified, compare with peers, watch promises, halt on proof.

 Each operation is written twice: as a function on the witness's state, which the theorems speak of,
 and as the method that updates the state, proved to compute that function. What the venue or a peer
 answers over the network is an argument.
 */
module WitnessCore {
  import opened Wrappers
  import opened Sequences
  import opened Chain
  import opened Witness

  datatype Promise = Promise(noticeHash: string, includeBy: int)

  datatype Broken = Broken(promise: Promise, headReceipt: Receipt, checkedAt: int)

  datatype Resolved = Resolved(noticeHash: string, seqNo: int, at: int)

  datatype ForkWhy =
    | WENT_BACKWARDS | NOT_SERVED | REWRITTEN | GENESIS_MISMATCH | CHAIN_BROKEN(at: int) | HEAD_NOT_REACHED

  datatype Fork = Fork(expected: Option<Head>, observed: Head, why: ForkWhy)

  datatype Halt = EQUIVOCATION(seqNo: int) | BROKEN_PROMISE(noticeHash: string)

  datatype State = State(
    lastCosigned: Option<Head>,
    receipts: seq<Receipt>,
    seen: map<int, Hash>,
    noticesSeen: map<string, int>,
    forks: seq<Fork>,
    equivocations: seq<EquivocationProof>,
    halted: Option<Halt>,
    peerReceipts: map<string, Receipt>,
    watching: seq<Promise>,
    pending: seq<string>,
    broken: seq<Broken>,
    resolved: seq<Resolved>)

  const Empty := State(None, [], map[], map[], [], [], None, map[], [], [], [], [])

  /** What a source lodges: a promise of the venue's, or a notice it never acknowledged. Nothing here checks who signed it. */
  datatype Item = OfPromise(promise: Promise) | OfNotice(noticeHash: string)

  /** One poll's conversation with the venue: its head, the entries it serves from the witness's last position, and whether it takes the receipt. */
  datatype Answer = Unreachable | Served(head: Head, venueId: string, entries: seq<Entry>, accepted: bool)

  datatype PollOutcome = WasHalted | Skipped | Threw | ForkSeen(why: ForkWhy) | Cosigned(receipt: Receipt)

  datatype GossipOutcome = Nothing | Failed | Detected(proof: EquivocationProof)

  const EntrySeq: Entry -> int := (e: Entry) => e.seqNo

  // ---------------------------------------------------------------- examining what the venue serves

  datatype Findings = Findings(prev: Option<Hash>, verified: map<int, Hash>, notices: map<string, int>)

  function FindSeq(es: seq<Entry>, n: int): Option<Entry> {
    if es == [] then None else if es[0].seqNo == n then Some(es[0]) else FindSeq(es[1..], n)
  }

  function Note(notices: map<string, int>, e: Entry): map<string, int> {
    if e.payload.noticeHash.Some? && e.payload.noticeHash.value != "" then notices[e.payload.noticeHash.value := e.seqNo] else notices
  }

  /** One entry's step: the reason to stop, or what is known after it. */
  function ScanOne(e: Entry, from: int, first: bool, f: Findings): Result<Findings, ForkWhy> {
    if e.seqNo == from && first then
      if EntryHash(e) != e.hash then Err(GENESIS_MISMATCH)
      else Ok(Findings(Some(e.hash), f.verified[e.seqNo := e.hash], Note(f.notices, e)))
    else if e.seqNo == from then Ok(f.(prev := Some(e.hash)))
    else if Some(e.prevHash) != f.prev || EntryHash(e) != e.hash then Err(CHAIN_BROKEN(e.seqNo))
    else Ok(Findings(Some(e.hash), f.verified[e.seqNo := e.hash], Note(f.notices, e)))
  }

  function Scan(es: seq<Entry>, from: int, first: bool, f: Findings): Result<Findings, ForkWhy> {
    if es == [] then Ok(f)
    else
      var r := ScanOne(es[0], from, first, f);
      if r.Err? then r else Scan(es[1..], from, first, r.value)
  }

  function HashOf(last: Option<Head>): Option<Hash> {
    if last.Some? then Some(last.value.hash) else None
  }

  function Examine(last: Option<Head>, head: Head, entries: seq<Entry>): Result<Findings, ForkWhy> {
    if head.seqNo < (if last.Some? then last.value.seqNo else -1) then Err(WENT_BACKWARDS)
    else
      var from := if last.Some? then last.value.seqNo else 0;
      var es := SortBy(entries, EntrySeq);
      var first := FindSeq(es, from);
      if first.None? then Err(NOT_SERVED)
      else if last.Some? && first.value.hash != last.value.hash then Err(REWRITTEN)
      else
        var r := Scan(es, from, last.None?, Findings(HashOf(last), map[], map[]));
        if r.Err? then r
        else if r.value.prev != Some(head.hash) then Err(HEAD_NOT_REACHED)
        else r
  }

  // ---------------------------------------------------------------- promises

  function FirstResolved(ps: seq<Promise>, seen: map<string, int>, at: int): seq<Resolved> {
    if ps == [] then []
    else (if ps[0].noticeHash in seen then [Resolved(ps[0].noticeHash, seen[ps[0].noticeHash], at)] else []) + FirstResolved(ps[1..], seen, at)
  }

  predicate Overdue(p: Promise, seen: map<string, int>, r: Receipt, now: int) {
    p.noticeHash !in seen && now > p.includeBy && r.at > p.includeBy
  }

  function FirstBroken(ps: seq<Promise>, seen: map<string, int>, r: Receipt, now: int): seq<Broken> {
    if ps == [] then []
    else (if Overdue(ps[0], seen, r, now) then [Broken(ps[0], r, now)] else []) + FirstBroken(ps[1..], seen, r, now)
  }

  function StillWatching(ps: seq<Promise>, seen: map<string, int>, r: Receipt, now: int): seq<Promise> {
    if ps == [] then []
    else (if ps[0].noticeHash in seen || Overdue(ps[0], seen, r, now) then [] else [ps[0]]) + StillWatching(ps[1..], seen, r, now)
  }

  function StillPending(hs: seq<string>, seen: map<string, int>): seq<string> {
    if hs == [] then [] else (if hs[0] in seen then [] else [hs[0]]) + StillPending(hs[1..], seen)
  }

  function Appeared(hs: seq<string>, seen: map<string, int>, at: int): seq<Resolved> {
    if hs == [] then [] else (if hs[0] in seen then [Resolved(hs[0], seen[hs[0]], at)] else []) + Appeared(hs[1..], seen, at)
  }

  function PromisesChecked(s: State, r: Receipt, now: int): State {
    var broken := FirstBroken(s.watching, s.noticesSeen, r, now);
    s.(watching := StillWatching(s.watching, s.noticesSeen, r, now),
       resolved := s.resolved + FirstResolved(s.watching, s.noticesSeen, now),
       broken := s.broken + broken,
       halted := if s.halted.None? && broken != [] then Some(BROKEN_PROMISE(broken[0].promise.noticeHash)) else s.halted)
  }

  function PendingChecked(s: State, now: int): State {
    s.(pending := StillPending(s.pending, s.noticesSeen), resolved := s.resolved + Appeared(s.pending, s.noticesSeen, now))
  }

  function CheckedWatch(s: State, r: Receipt, now: int): State { PendingChecked(PromisesChecked(s, r, now), now) }

  predicate Watches(ps: seq<Promise>, noticeHash: string) {
    exists i :: 0 <= i < |ps| && ps[i].noticeHash == noticeHash
  }

  function Lodged(s: State, i: Item): State {
    match i
    case OfPromise(p) => if Watches(s.watching, p.noticeHash) then s else s.(watching := s.watching + [p])
    case OfNotice(h) => if h in s.pending then s else s.(pending := s.pending + [h])
  }

  function Watched(s: State, i: Item, now: int): State {
    var t := Lodged(s, i);
    if t.receipts == [] then t else CheckedWatch(t, t.receipts[|t.receipts| - 1], now)
  }

  predicate HoldsBroken(bs: seq<Broken>, noticeHash: string) {
    exists i :: 0 <= i < |bs| && bs[i].promise.noticeHash == noticeHash
  }

  /** A peer's claim that a promise was broken, taken at its word. */
  function BrokenReceived(s: State, b: Broken): State {
    if HoldsBroken(s.broken, b.promise.noticeHash) then s
    else
      s.(broken := s.broken + [b],
         halted := if s.halted.None? then Some(BROKEN_PROMISE(b.promise.noticeHash)) else s.halted)
  }

  // ---------------------------------------------------------------- polling

  function Cosign(s: State, head: Head, f: Findings, r: Receipt): State {
    s.(seen := (s.seen + f.verified)[head.seqNo := head.hash],
       noticesSeen := s.noticesSeen + f.notices,
       lastCosigned := Some(head),
       receipts := s.receipts + [r])
  }

  function Polled(s: State, me: WitnessKey, a: Answer, at: int, now: int): (State, PollOutcome) {
    if s.halted.Some? then (s, WasHalted)
    else if a.Unreachable? then (s, Skipped)
    else if s.lastCosigned.Some? && a.head.seqNo == s.lastCosigned.value.seqNo && a.head.hash == s.lastCosigned.value.hash then (s, Skipped)
    else if s.lastCosigned.None? && a.head.seqNo < -1 then (s, Threw)
    else
      var r := Examine(s.lastCosigned, a.head, a.entries);
      if r.Err? then (s.(forks := s.forks + [Fork(s.lastCosigned, a.head, r.error)]), ForkSeen(r.error))
      else if !a.accepted then (s, Skipped)
      else
        var receipt := SignReceipt(me, a.venueId, a.head.seqNo, a.head.hash, at);
        (CheckedWatch(Cosign(s, a.head, r.value, receipt), receipt, now), Cosigned(receipt))
  }

  // ---------------------------------------------------------------- receipts on demand, gossip, proofs

  function ReceiptMatching(rs: seq<Receipt>, n: int, h: Hash): Option<Receipt> {
    if rs == [] then None else if rs[0].seqNo == n && rs[0].hash == h then Some(rs[0]) else ReceiptMatching(rs[1..], n, h)
  }

  function ReceiptAt(rs: seq<Receipt>, n: int): Option<Receipt> {
    if rs == [] then None else if rs[0].seqNo == n then Some(rs[0]) else ReceiptAt(rs[1..], n)
  }

  function ReceiptedFor(s: State, me: WitnessKey, n: int, at: int): (State, Option<Receipt>) {
    if n !in s.seen then (s, None)
    else
      var existing := ReceiptMatching(s.receipts, n, s.seen[n]);
      if existing.Some? then (s, existing)
      else if s.receipts == [] || s.receipts[0].venueId == "" then (s, None)
      else
        var r := SignReceipt(me, s.receipts[0].venueId, n, s.seen[n], at);
        (s.(receipts := s.receipts + [r]), Some(r))
  }

  predicate SameConflict(x: EquivocationProof, p: EquivocationProof) {
    x.seqNo == p.seqNo && x.a.hash == p.a.hash && x.b.hash == p.b.hash
  }

  predicate HoldsConflict(ps: seq<EquivocationProof>, p: EquivocationProof) {
    exists i :: 0 <= i < |ps| && SameConflict(ps[i], p)
  }

  function Recorded(s: State, p: EquivocationProof): State {
    s.(equivocations := if HoldsConflict(s.equivocations, p) then s.equivocations else s.equivocations + [p],
       halted := if s.halted.None? then Some(EQUIVOCATION(p.seqNo)) else s.halted)
  }

  function Gossiped(s: State, me: WitnessKey, peers: seq<WitnessKey>, r: Receipt, now: int): (State, GossipOutcome) {
    var peer := FindKey(peers, r.witnessId);
    if peer.None? || !VerifyReceipt(r, peer.value.x) then (s, Nothing)
    else
      var t := s.(peerReceipts := s.peerReceipts[r.witnessId := r]);
      if r.seqNo !in t.seen || t.seen[r.seqNo] == r.hash then (t, Nothing)
      else
        var own := ReceiptAt(t.receipts, r.seqNo);
        var mine := if own.Some? then own.value else SignReceipt(me, r.venueId, r.seqNo, t.seen[r.seqNo], now);
        var u := if own.Some? then t else t.(receipts := t.receipts + [mine]);
        var proof := MakeProof(mine, r, me.witnessId, now);
        if proof.None? then (u, Failed) else (Recorded(u, proof.value), Detected(proof.value))
  }

  function ProofReceived(s: State, me: WitnessKey, peers: seq<WitnessKey>, p: EquivocationProof): (State, bool) {
    if VerifyProof(p, peers + [me]) then (Recorded(s, p), true) else (s, false)
  }

  function Latest(s: State): Option<Receipt> {
    if s.receipts == [] then None else Some(s.receipts[|s.receipts| - 1])
  }

  /**
   One peer's turn in a gossip round: fetch its latest receipt, hand it mine, ask it for a receipt at
   my position if it is ahead, and compare.
   */
  function Round(a: State, meA: WitnessKey, peersA: seq<WitnessKey>, b: State, meB: WitnessKey, peersB: seq<WitnessKey>, mine: Option<Receipt>, now: int)
    : (State, State, GossipOutcome)
  {
    var latest := Latest(b);
    var b1 := if mine.Some? then Gossiped(b, meB, peersB, mine.value, now).0 else b;
    if latest.None? then (a, b1, Nothing)
    else if mine.Some? && latest.value.seqNo > mine.value.seqNo then
      var (b2, answer) := ReceiptedFor(b1, meB, mine.value.seqNo, now);
      if answer.None? then (a, b2, Nothing)
      else
        var (a1, o) := Gossiped(a, meA, peersA, answer.value, now);
        (a1, b2, o)
    else
      var (a1, o) := Gossiped(a, meA, peersA, latest.value, now);
      (a1, b1, o)
  }

  function Settle(ps: seq<Promise>, seen: map<string, int>, r: Receipt, now: int, left: seq<Promise>, fixed: seq<Resolved>, bad: seq<Broken>)
    : (seq<Promise>, seq<Resolved>, seq<Broken>)
    decreases |ps|
  {
    if ps == [] then (left, fixed, bad)
    else if ps[0].noticeHash in seen then Settle(ps[1..], seen, r, now, left, fixed + [Resolved(ps[0].noticeHash, seen[ps[0].noticeHash], now)], bad)
    else if Overdue(ps[0], seen, r, now) then Settle(ps[1..], seen, r, now, left, fixed, bad + [Broken(ps[0], r, now)])
    else Settle(ps[1..], seen, r, now, left + [ps[0]], fixed, bad)
  }

  /** One pass settles every promise: the three outcomes partition them, order kept. */
  lemma {:induction false} SettleSorts(ps: seq<Promise>, seen: map<string, int>, r: Receipt, now: int, left: seq<Promise>, fixed: seq<Resolved>, bad: seq<Broken>)
    ensures Settle(ps, seen, r, now, left, fixed, bad)
      == (left + StillWatching(ps, seen, r, now), fixed + FirstResolved(ps, seen, now), bad + FirstBroken(ps, seen, r, now))
    decreases |ps|
  {
    if ps == [] {
      assert left + [] == left && fixed + [] == fixed && bad + [] == bad;
    } else if ps[0].noticeHash in seen {
      var one := Resolved(ps[0].noticeHash, seen[ps[0].noticeHash], now);
      SettleSorts(ps[1..], seen, r, now, left, fixed + [one], bad);
      assert (fixed + [one]) + FirstResolved(ps[1..], seen, now) == fixed + ([one] + FirstResolved(ps[1..], seen, now));
      assert StillWatching(ps, seen, r, now) == StillWatching(ps[1..], seen, r, now);
      assert FirstBroken(ps, seen, r, now) == FirstBroken(ps[1..], seen, r, now);
    } else if Overdue(ps[0], seen, r, now) {
      var one := Broken(ps[0], r, now);
      SettleSorts(ps[1..], seen, r, now, left, fixed, bad + [one]);
      assert (bad + [one]) + FirstBroken(ps[1..], seen, r, now) == bad + ([one] + FirstBroken(ps[1..], seen, r, now));
      assert StillWatching(ps, seen, r, now) == StillWatching(ps[1..], seen, r, now);
      assert FirstResolved(ps, seen, now) == FirstResolved(ps[1..], seen, now);
    } else {
      SettleSorts(ps[1..], seen, r, now, left + [ps[0]], fixed, bad);
      assert (left + [ps[0]]) + StillWatching(ps[1..], seen, r, now) == left + ([ps[0]] + StillWatching(ps[1..], seen, r, now));
      assert FirstResolved(ps, seen, now) == FirstResolved(ps[1..], seen, now);
      assert FirstBroken(ps, seen, r, now) == FirstBroken(ps[1..], seen, r, now);
    }
  }

  /** The pass over the promises being watched: kept, resolved by an entry, or overdue without one. */
  method SettlePromises(ps: seq<Promise>, seen: map<string, int>, r: Receipt, now: int)
    returns (left: seq<Promise>, fixed: seq<Resolved>, bad: seq<Broken>)
    ensures left == StillWatching(ps, seen, r, now)
    ensures fixed == FirstResolved(ps, seen, now)
    ensures bad == FirstBroken(ps, seen, r, now)
  {
    left, fixed, bad := [], [], [];
    for i := 0 to |ps|
      invariant Settle(ps, seen, r, now, [], [], []) == Settle(ps[i..], seen, r, now, left, fixed, bad)
    {
      var p := ps[i];
      assert ps[i..][0] == p && ps[i..][1..] == ps[i + 1..];
      if p.noticeHash in seen {
        fixed := fixed + [Resolved(p.noticeHash, seen[p.noticeHash], now)];
      } else if now > p.includeBy && r.at > p.includeBy {
        bad := bad + [Broken(p, r, now)];
      } else {
        left := left + [p];
      }
    }
    SettleSorts(ps, seen, r, now, [], [], []);
  }

  /** The pass over the notices lodged without a promise. */
  method SettlePending(hs: seq<string>, seen: map<string, int>, now: int) returns (left: seq<string>, fixed: seq<Resolved>)
    ensures left == StillPending(hs, seen)
    ensures fixed == Appeared(hs, seen, now)
  {
    left, fixed := [], [];
    for i := 0 to |hs|
      invariant StillPending(hs, seen) == left + StillPending(hs[i..], seen)
      invariant Appeared(hs, seen, now) == fixed + Appeared(hs[i..], seen, now)
    {
      assert hs[i..][0] == hs[i] && hs[i..][1..] == hs[i + 1..];
      if hs[i] in seen {
        fixed := fixed + [Resolved(hs[i], seen[hs[i]], now)];
      } else {
        left := left + [hs[i]];
      }
    }
  }

  // ---------------------------------------------------------------- the witness process

  class Core {
    const me: WitnessKey
    const peers: seq<WitnessKey>
    var lastCosigned: Option<Head>
    var receipts: seq<Receipt>
    var seen: map<int, Hash>
    var noticesSeen: map<string, int>
    var forks: seq<Fork>
    var equivocations: seq<EquivocationProof>
    var halted: Option<Halt>
    var peerReceipts: map<string, Receipt>
    var watching: seq<Promise>
    var pending: seq<string>
    var broken: seq<Broken>
    var resolved: seq<Resolved>

    constructor (me: WitnessKey, peers: seq<WitnessKey>)
      ensures View() == Empty && this.me == me && this.peers == peers
    {
      this.me, this.peers := me, peers;
      lastCosigned, receipts, seen, noticesSeen, forks := None, [], map[], map[], [];
      equivocations, halted, peerReceipts, watching, pending, broken, resolved := [], None, map[], [], [], [], [];
    }

    function View(): State
      reads this
    {
      State(lastCosigned, receipts, seen, noticesSeen, forks, equivocations, halted, peerReceipts, watching, pending, broken, resolved)
    }

    method LatestReceipt() returns (r: Option<Receipt>)
      ensures r == Latest(View())
    {
      return if |receipts| == 0 then None else Some(receipts[|receipts| - 1]);
    }

    method ExamineServed(head: Head, entries: seq<Entry>) returns (r: Result<Findings, ForkWhy>)
      ensures r == Examine(lastCosigned, head, entries)
    {
      if head.seqNo < (if lastCosigned.Some? then lastCosigned.value.seqNo else -1) { return Err(WENT_BACKWARDS); }
      var from := if lastCosigned.Some? then lastCosigned.value.seqNo else 0;
      var es := SortBy(entries, EntrySeq);
      var first := FindSeq(es, from);
      if first.None? { return Err(NOT_SERVED); }
      if lastCosigned.Some? && first.value.hash != lastCosigned.value.hash { return Err(REWRITTEN); }
      var f := Findings(HashOf(lastCosigned), map[], map[]);
      ghost var whole := Scan(es, from, lastCosigned.None?, f);
      for i := 0 to |es|
        invariant whole == Scan(es[i..], from, lastCosigned.None?, f)
      {
        var e := es[i];
        assert es[i..][0] == e && es[i..][1..] == es[i + 1..];
        if e.seqNo == from && lastCosigned.None? {
          if EntryHash(e) != e.hash { return Err(GENESIS_MISMATCH); }
          f := Findings(Some(e.hash), f.verified[e.seqNo := e.hash], Note(f.notices, e));
        } else if e.seqNo == from {
          f := f.(prev := Some(e.hash));
        } else if Some(e.prevHash) != f.prev || EntryHash(e) != e.hash {
          return Err(CHAIN_BROKEN(e.seqNo));
        } else {
          f := Findings(Some(e.hash), f.verified[e.seqNo := e.hash], Note(f.notices, e));
        }
      }
      if f.prev != Some(head.hash) { return Err(HEAD_NOT_REACHED); }
      return Ok(f);
    }

    method CheckWatched(headReceipt: Receipt, now: int)
      modifies this
      ensures View() == CheckedWatch(old(View()), headReceipt, now)
    {
      var left, fixed, bad := SettlePromises(watching, noticesSeen, headReceipt, now);
      watching, resolved, broken := left, resolved + fixed, broken + bad;
      if halted.None? && |bad| > 0 { halted := Some(BROKEN_PROMISE(bad[0].promise.noticeHash)); }
      assert View() == PromisesChecked(old(View()), headReceipt, now);
      var waiting, appeared := SettlePending(pending, noticesSeen, now);
      pending, resolved := waiting, resolved + appeared;
    }

    method Poll(a: Answer, at: int, now: int) returns (o: PollOutcome)
      modifies this
      ensures (View(), o) == Polled(old(View()), me, a, at, now)
    {
      if halted.Some? { return WasHalted; }
      if a.Unreachable? { return Skipped; }
      var head := a.head;
      if lastCosigned.Some? && head.seqNo == lastCosigned.value.seqNo && head.hash == lastCosigned.value.hash { return Skipped; }
      if lastCosigned.None? && head.seqNo < -1 { return Threw; }
      var r := ExamineServed(head, a.entries);
      if r.Err? {
        forks := forks + [Fork(lastCosigned, head, r.error)];
        return ForkSeen(r.error);
      }
      if !a.accepted { return Skipped; }
      var receipt := SignReceipt(me, a.venueId, head.seqNo, head.hash, at);
      seen := (seen + r.value.verified)[head.seqNo := head.hash];
      noticesSeen := noticesSeen + r.value.notices;
      lastCosigned := Some(head);
      receipts := receipts + [receipt];
      CheckWatched(receipt, now);
      return Cosigned(receipt);
    }

    method Watch(item: Item, now: int)
      modifies this
      ensures View() == Watched(old(View()), item, now)
    {
      match item {
        case OfPromise(p) => if !Watches(watching, p.noticeHash) { watching := watching + [p]; }
        case OfNotice(h) => if h !in pending { pending := pending + [h]; }
      }
      if |receipts| > 0 { CheckWatched(receipts[|receipts| - 1], now); }
    }

    method ReceiveBroken(b: Broken) returns (accepted: bool)
      modifies this
      ensures accepted && View() == BrokenReceived(old(View()), b)
    {
      if HoldsBroken(broken, b.promise.noticeHash) { return true; }
      broken := broken + [b];
      if halted.None? { halted := Some(BROKEN_PROMISE(b.promise.noticeHash)); }
      return true;
    }

    method ReceiptFor(n: int, at: int) returns (r: Option<Receipt>)
      modifies this
      ensures (View(), r) == ReceiptedFor(old(View()), me, n, at)
    {
      if n !in seen { return None; }
      var existing := ReceiptMatching(receipts, n, seen[n]);
      if existing.Some? { return existing; }
      if |receipts| == 0 || receipts[0].venueId == "" { return None; }
      var signed := SignReceipt(me, receipts[0].venueId, n, seen[n], at);
      receipts := receipts + [signed];
      return Some(signed);
    }

    method RecordProof(p: EquivocationProof)
      modifies this
      ensures View() == Recorded(old(View()), p)
    {
      if !HoldsConflict(equivocations, p) { equivocations := equivocations + [p]; }
      if halted.None? { halted := Some(EQUIVOCATION(p.seqNo)); }
    }

    method ReceiveGossip(r: Receipt, now: int) returns (o: GossipOutcome)
      modifies this
      ensures (View(), o) == Gossiped(old(View()), me, peers, r, now)
    {
      var peer := FindKey(peers, r.witnessId);
      if peer.None? || !VerifyReceipt(r, peer.value.x) { return Nothing; }
      peerReceipts := peerReceipts[r.witnessId := r];
      if r.seqNo !in seen || seen[r.seqNo] == r.hash { return Nothing; }
      var own := ReceiptAt(receipts, r.seqNo);
      var mine;
      if own.Some? {
        mine := own.value;
      } else {
        mine := SignReceipt(me, r.venueId, r.seqNo, seen[r.seqNo], now);
        receipts := receipts + [mine];
      }
      var proof := MakeProof(mine, r, me.witnessId, now);
      if proof.None? { return Failed; }
      RecordProof(proof.value);
      return Detected(proof.value);
    }

    method ReceiveProof(p: EquivocationProof) returns (ok: bool)
      modifies this
      ensures (View(), ok) == ProofReceived(old(View()), me, peers, p)
    {
      if !VerifyProof(p, peers + [me]) { return false; }
      RecordProof(p);
      return true;
    }

    method GossipWith(peer: Core, mine: Option<Receipt>, now: int) returns (o: GossipOutcome)
      requires peer != this
      modifies this, peer
      ensures (View(), peer.View(), o) == Round(old(View()), me, peers, old(peer.View()), peer.me, peer.peers, mine, now)
    {
      var latest := peer.LatestReceipt();
      if mine.Some? { var _ := peer.ReceiveGossip(mine.value, now); }
      if latest.None? { return Nothing; }
      var toCompare := latest;
      if mine.Some? && latest.value.seqNo > mine.value.seqNo {
        toCompare := peer.ReceiptFor(mine.value.seqNo, now);
      }
      if toCompare.None? { return Nothing; }
      o := ReceiveGossip(toCompare.value, now);
    }
  }
}
