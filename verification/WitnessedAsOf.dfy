/**
 How far a publication is known complete: the time up to which enough pinned witnesses vouch for its
 head (src/protocol/witness.ts, witnessedAsOf).
 */
module WitnessedAsOf {
  import opened Wrappers
  import opened Sequences
  import opened Witness

  datatype Witnessed = Witnessed(head: Head, receipts: seq<Receipt>)

  datatype Publication = Publication(venueId: string, witnessed: Option<Witnessed>)

  datatype Policy = Policy(minWitnesses: int, required: seq<string>)

  datatype Completeness = Completeness(at: Option<int>, who: seq<string>, head: Option<Head>, quorum: bool, missingRequired: seq<string>)

  function Needed(pol: Policy): (k: nat)
    ensures k >= 1
  {
    if pol.minWitnesses > 1 then pol.minWitnesses else 1
  }

  /** By a pinned witness, for this venue and exactly this head, and genuinely signed. */
  predicate Counts(r: Receipt, venueId: string, head: Head, keys: seq<WitnessKey>) {
    var key := FindKey(keys, r.witnessId);
    key.Some? && r.venueId == venueId && r.seqNo == head.seqNo && r.hash == head.hash && VerifyReceipt(r, key.value.x)
  }

  function Good(rs: seq<Receipt>, venueId: string, head: Head, keys: seq<WitnessKey>): seq<Receipt> {
    if rs == [] then [] else (if Counts(rs[0], venueId, head, keys) then [rs[0]] else []) + Good(rs[1..], venueId, head, keys)
  }

  /** The witnesses in order of first receipt, and the latest receipt of each. */
  datatype Table = Table(order: seq<string>, latest: map<string, Receipt>)

  function Entered(t: Table, r: Receipt): Table {
    if r.witnessId !in t.latest then Table(t.order + [r.witnessId], t.latest[r.witnessId := r])
    else if r.at > t.latest[r.witnessId].at then t.(latest := t.latest[r.witnessId := r])
    else t
  }

  function LatestBy(good: seq<Receipt>): Table {
    if good == [] then Table([], map[]) else Entered(LatestBy(good[..|good| - 1]), good[|good| - 1])
  }

  function Missing(required: seq<string>, latest: map<string, Receipt>): seq<string> {
    if required == [] then [] else (if required[0] in latest then [] else [required[0]]) + Missing(required[1..], latest)
  }

  ghost predicate Tabled(t: Table) {
    && (forall w :: w in t.order <==> w in t.latest)
    && forall i, j :: 0 <= i < j < |t.order| ==> t.order[i] != t.order[j]
  }

  function Times(order: seq<string>, latest: map<string, Receipt>): (ts: seq<int>)
    requires forall w :: w in order ==> w in latest
    ensures |ts| == |order|
  {
    if order == [] then [] else [latest[order[0]].at] + Times(order[1..], latest)
  }

  const Descending: int -> int := (t: int) => -t

  function Judged(t: Table, head: Head, pol: Policy): Completeness
    requires forall w :: w in t.order ==> w in t.latest
  {
    var missing := Missing(pol.required, t.latest);
    var times := SortBy(Times(t.order, t.latest), Descending);
    var quorum := |times| >= Needed(pol) && missing == [];
    SortByKeeps(Times(t.order, t.latest), Descending);
    Completeness(if quorum then Some(times[Needed(pol) - 1]) else None, t.order, Some(head), quorum, missing)
  }

  lemma {:induction false} LatestByIsTable(good: seq<Receipt>)
    ensures Tabled(LatestBy(good))
  {
    if good != [] { LatestByIsTable(good[..|good| - 1]); }
  }

  function AsOf(pub: Publication, keys: seq<WitnessKey>, pol: Policy): Completeness {
    if pub.witnessed.None? then Completeness(None, [], None, false, pol.required)
    else
      var w := pub.witnessed.value;
      var t := LatestBy(Good(w.receipts, pub.venueId, w.head, keys));
      LatestByIsTable(Good(w.receipts, pub.venueId, w.head, keys));
      Judged(t, w.head, pol)
  }

  method Tabulate(good: seq<Receipt>) returns (order: seq<string>, latest: map<string, Receipt>)
    ensures Table(order, latest) == LatestBy(good)
  {
    order, latest := [], map[];
    for i := 0 to |good|
      invariant Table(order, latest) == LatestBy(good[..i])
    {
      assert good[..i + 1][..i] == good[..i];
      var r := good[i];
      if r.witnessId !in latest {
        order := order + [r.witnessId];
        latest := latest[r.witnessId := r];
      } else if r.at > latest[r.witnessId].at {
        latest := latest[r.witnessId := r];
      }
    }
    assert good[..|good|] == good;
  }

  method WitnessedAsOf(pub: Publication, keys: seq<WitnessKey>, pol: Policy) returns (c: Completeness)
    ensures c == AsOf(pub, keys, pol)
  {
    if pub.witnessed.None? { return Completeness(None, [], None, false, pol.required); }
    var head := pub.witnessed.value.head;
    var good := Good(pub.witnessed.value.receipts, pub.venueId, head, keys);
    var order, latest := Tabulate(good);
    LatestByIsTable(good);
    var missing := Missing(pol.required, latest);
    var times := SortBy(Times(order, latest), Descending);
    SortByKeeps(Times(order, latest), Descending);
    var quorum := |times| >= Needed(pol) && |missing| == 0;
    if |times| == 0 { return Completeness(None, order, Some(head), false, missing); }
    var k := if Needed(pol) < |times| then Needed(pol) else |times|;
    return Completeness(if quorum then Some(times[k - 1]) else None, order, Some(head), quorum, missing);
  }

  // ---------------------------------------------------------------- what the time means

  /** The pinned witnesses that genuinely signed exactly this head at `t` or later. */
  function Vouching(pub: Publication, keys: seq<WitnessKey>, t: int): set<string> {
    if pub.witnessed.None? then {}
    else set r | r in pub.witnessed.value.receipts && Counts(r, pub.venueId, pub.witnessed.value.head, keys) && r.at >= t :: r.witnessId
  }

  /** The pinned witnesses that genuinely signed exactly this head at all. */
  function Signers(pub: Publication, keys: seq<WitnessKey>): set<string> {
    if pub.witnessed.None? then {}
    else set r | r in pub.witnessed.value.receipts && Counts(r, pub.venueId, pub.witnessed.value.head, keys) :: r.witnessId
  }

  lemma {:induction false} GoodMembers(rs: seq<Receipt>, venueId: string, head: Head, keys: seq<WitnessKey>)
    ensures forall r :: r in Good(rs, venueId, head, keys) <==> r in rs && Counts(r, venueId, head, keys)
  {
    if rs != [] {
      GoodMembers(rs[1..], venueId, head, keys);
      assert rs == [rs[0]] + rs[1..];
    }
  }

  /** The table holds, per signer, a receipt of theirs that none of theirs is later than. */
  ghost predicate Summarises(t: Table, good: seq<Receipt>) {
    && (forall r :: r in good ==> r.witnessId in t.latest && r.at <= t.latest[r.witnessId].at)
    && (forall w :: w in t.latest ==> t.latest[w] in good && t.latest[w].witnessId == w)
  }

  lemma {:induction false} LatestBySummarises(good: seq<Receipt>)
    ensures Summarises(LatestBy(good), good)
  {
    if good != [] {
      var n := |good| - 1;
      LatestBySummarises(good[..n]);
      assert good == good[..n] + [good[n]];
    }
  }

  function AtLeast(ts: seq<int>, t: int): nat {
    if ts == [] then 0 else (if ts[0] >= t then 1 else 0) + AtLeast(ts[1..], t)
  }

  lemma {:induction false} InsertCountsToo(x: int, ts: seq<int>, t: int)
    ensures AtLeast(InsertBy(x, ts, Descending), t) == AtLeast(ts, t) + if x >= t then 1 else 0
  {
    var out := InsertBy(x, ts, Descending);
    if ts == [] || Descending(x) <= Descending(ts[0]) {
      assert out[1..] == ts;
    } else {
      InsertCountsToo(x, ts[1..], t);
      assert out[1..] == InsertBy(x, ts[1..], Descending);
    }
  }

  lemma {:induction false} SortCountsToo(ts: seq<int>, t: int)
    ensures AtLeast(SortBy(ts, Descending), t) == AtLeast(ts, t)
  {
    if ts != [] {
      SortCountsToo(ts[1..], t);
      InsertCountsToo(ts[0], SortBy(ts[1..], Descending), t);
    }
  }

  /** In a descending list, the k-th entry is at least `t` exactly when k entries are. */
  lemma {:induction false} KthEntry(ts: seq<int>, k: nat, t: int)
    requires Ascending(ts, Descending) && 1 <= k <= |ts|
    ensures ts[k - 1] >= t <==> AtLeast(ts, t) >= k
  {
    if ts[0] < t {
      NoneAtLeast(ts, t);
      assert Descending(ts[0]) <= Descending(ts[k - 1]);
    } else if k > 1 {
      KthEntry(ts[1..], k - 1, t);
    }
  }

  lemma {:induction false} NoneAtLeast(ts: seq<int>, t: int)
    requires Ascending(ts, Descending) && ts != [] && ts[0] < t
    ensures AtLeast(ts, t) == 0
  {
    if |ts| > 1 {
      assert Descending(ts[0]) <= Descending(ts[1]);
      NoneAtLeast(ts[1..], t);
    }
  }

  function Late(order: seq<string>, latest: map<string, Receipt>, t: int): set<string>
    requires forall w :: w in order ==> w in latest
  {
    set w | w in order && latest[w].at >= t
  }

  lemma {:induction false} CountIsSize(order: seq<string>, latest: map<string, Receipt>, t: int)
    requires forall w :: w in order ==> w in latest
    requires forall i, j :: 0 <= i < j < |order| ==> order[i] != order[j]
    ensures AtLeast(Times(order, latest), t) == |Late(order, latest, t)|
  {
    if order == [] {
      assert Late(order, latest, t) == {};
    } else {
      CountIsSize(order[1..], latest, t);
      OneMoreLate(order[0], order[1..], latest, t);
      assert order == [order[0]] + order[1..];
    }
  }

  lemma OneMoreLate(w: string, order: seq<string>, latest: map<string, Receipt>, t: int)
    requires w in latest && w !in order && forall v :: v in order ==> v in latest
    ensures |Late([w] + order, latest, t)| == |Late(order, latest, t)| + if latest[w].at >= t then 1 else 0
  {
    var rest := Late(order, latest, t);
    assert Late([w] + order, latest, t) == if latest[w].at >= t then rest + {w} else rest;
  }

  lemma {:induction false} DistinctCount(order: seq<string>)
    requires forall i, j :: 0 <= i < j < |order| ==> order[i] != order[j]
    ensures |(set w | w in order)| == |order|
  {
    if order == [] {
      assert (set w | w in order) == {};
    } else {
      DistinctCount(order[1..]);
      assert order == [order[0]] + order[1..] && order[0] !in order[1..];
      assert (set w | w in order) == (set w | w in order[1..]) + {order[0]};
    }
  }

  lemma {:induction false} MissingNone(required: seq<string>, latest: map<string, Receipt>)
    ensures Missing(required, latest) == [] <==> forall w :: w in required ==> w in latest
  {
    if required != [] {
      MissingNone(required[1..], latest);
      assert required == [required[0]] + required[1..];
    }
  }

  lemma TableMatches(pub: Publication, keys: seq<WitnessKey>, t: int)
    requires pub.witnessed.Some?
    ensures var table := LatestBy(Good(pub.witnessed.value.receipts, pub.venueId, pub.witnessed.value.head, keys));
      && Tabled(table) && table.latest.Keys == Signers(pub, keys)
      && Late(table.order, table.latest, t) == Vouching(pub, keys, t)
  {
    var w := pub.witnessed.value;
    var good := Good(w.receipts, pub.venueId, w.head, keys);
    GoodMembers(w.receipts, pub.venueId, w.head, keys);
    LatestBySummarises(good);
    LatestByIsTable(good);
    var table := LatestBy(good);
    assert forall id :: id in table.latest ==> table.latest[id] in good;
  }

  ghost predicate Reached(pub: Publication, keys: seq<WitnessKey>, pol: Policy) {
    |Signers(pub, keys)| >= Needed(pol) && forall w :: w in pol.required ==> w in Signers(pub, keys)
  }

  lemma QuorumMeans(pub: Publication, keys: seq<WitnessKey>, pol: Policy)
    ensures AsOf(pub, keys, pol).quorum <==> Reached(pub, keys, pol)
    ensures AsOf(pub, keys, pol).at.Some? <==> AsOf(pub, keys, pol).quorum
  {
    if pub.witnessed.Some? {
      var w := pub.witnessed.value;
      var table := LatestBy(Good(w.receipts, pub.venueId, w.head, keys));
      TableMatches(pub, keys, 0);
      DistinctCount(table.order);
      assert (set id | id in table.order) == table.latest.Keys;
      MissingNone(pol.required, table.latest);
      SortByKeeps(Times(table.order, table.latest), Descending);
    }
  }

  lemma VouchersCounted(t: Table, k: nat, at: int)
    requires Tabled(t) && 1 <= k <= |t.order|
    ensures |SortBy(Times(t.order, t.latest), Descending)| == |t.order|
    ensures SortBy(Times(t.order, t.latest), Descending)[k - 1] >= at <==> |Late(t.order, t.latest, at)| >= k
  {
    var ts := Times(t.order, t.latest);
    SortByKeeps(ts, Descending);
    KthEntry(SortBy(ts, Descending), k, at);
    SortCountsToo(ts, at);
    CountIsSize(t.order, t.latest, at);
  }

  lemma JudgedTime(table: Table, head: Head, pol: Policy, t: int)
    requires Tabled(table) && Judged(table, head, pol).quorum
    ensures Judged(table, head, pol).at.Some?
    ensures t <= Judged(table, head, pol).at.value <==> |Late(table.order, table.latest, t)| >= Needed(pol)
  {
    SortByKeeps(Times(table.order, table.latest), Descending);
    VouchersCounted(table, Needed(pol), t);
  }

  lemma TimeMeans(pub: Publication, keys: seq<WitnessKey>, pol: Policy, t: int)
    requires AsOf(pub, keys, pol).quorum
    ensures AsOf(pub, keys, pol).at.Some?
    ensures t <= AsOf(pub, keys, pol).at.value <==> |Vouching(pub, keys, t)| >= Needed(pol)
  {
    var w := pub.witnessed.value;
    TableMatches(pub, keys, t);
    JudgedTime(LatestBy(Good(w.receipts, pub.venueId, w.head, keys)), w.head, pol, t);
  }

  /**
   The quorum holds exactly when enough pinned witnesses signed this head and every required one is among them. The
   time is then the greatest to which at least that many vouch: for any time, that many sign at it or later exactly
   when it is not after the answer.
   */
  lemma TimeIsTheGreatestVouchedFor(pub: Publication, keys: seq<WitnessKey>, pol: Policy)
    ensures var c := AsOf(pub, keys, pol);
      && (c.quorum <==> Reached(pub, keys, pol)) && (c.at.Some? <==> c.quorum)
      && (c.quorum ==> forall t :: t <= c.at.value <==> |Vouching(pub, keys, t)| >= Needed(pol))
  {
    QuorumMeans(pub, keys, pol);
    if AsOf(pub, keys, pol).quorum {
      forall t ensures t <= AsOf(pub, keys, pol).at.value <==> |Vouching(pub, keys, t)| >= Needed(pol) { TimeMeans(pub, keys, pol, t); }
    }
  }

  lemma Fewer(a: set<string>, b: set<string>)
    requires a <= b
    ensures |a| <= |b|
  {
    if a != {} {
      var x :| x in a;
      Fewer(a - {x}, b - {x});
    }
  }

  ghost predicate SameHead(a: Publication, b: Publication) {
    a.venueId == b.venueId && a.witnessed.Some? && b.witnessed.Some? && a.witnessed.value.head == b.witnessed.value.head
  }

  /** Every receipt of `a` that counts is in `b`. */
  ghost predicate NoReceiptLost(a: Publication, b: Publication, keys: seq<WitnessKey>) {
    SameHead(a, b) && forall r :: r in a.witnessed.value.receipts && Counts(r, a.venueId, a.witnessed.value.head, keys) ==> r in b.witnessed.value.receipts
  }

  /** More receipts never lose a quorum or lower the time, whatever their order or their copies. */
  lemma MoreReceiptsNeverLower(a: Publication, b: Publication, keys: seq<WitnessKey>, pol: Policy)
    requires NoReceiptLost(a, b, keys) && AsOf(a, keys, pol).quorum
    ensures AsOf(b, keys, pol).quorum && AsOf(a, keys, pol).at.value <= AsOf(b, keys, pol).at.value
  {
    TimeIsTheGreatestVouchedFor(a, keys, pol);
    TimeIsTheGreatestVouchedFor(b, keys, pol);
    var t := AsOf(a, keys, pol).at.value;
    assert Signers(a, keys) <= Signers(b, keys) && Vouching(a, keys, t) <= Vouching(b, keys, t);
    Fewer(Signers(a, keys), Signers(b, keys));
    Fewer(Vouching(a, keys, t), Vouching(b, keys, t));
  }

  /** Receipts by unpinned keys, for another head or venue, or already present change neither verdict nor time. */
  lemma UncountedReceiptsChangeNothing(a: Publication, b: Publication, keys: seq<WitnessKey>, pol: Policy)
    requires NoReceiptLost(a, b, keys) && NoReceiptLost(b, a, keys)
    ensures AsOf(a, keys, pol).quorum == AsOf(b, keys, pol).quorum && AsOf(a, keys, pol).at == AsOf(b, keys, pol).at
  {
    TimeIsTheGreatestVouchedFor(a, keys, pol);
    TimeIsTheGreatestVouchedFor(b, keys, pol);
    if AsOf(a, keys, pol).quorum { MoreReceiptsNeverLower(a, b, keys, pol); }
    if AsOf(b, keys, pol).quorum { MoreReceiptsNeverLower(b, a, keys, pol); }
  }

  /** Asking for more witnesses never raises the time. */
  lemma StricterPolicyNeverRaises(pub: Publication, keys: seq<WitnessKey>, loose: Policy, strict: Policy)
    requires Needed(loose) <= Needed(strict) && AsOf(pub, keys, loose).quorum && AsOf(pub, keys, strict).quorum
    ensures AsOf(pub, keys, strict).at.value <= AsOf(pub, keys, loose).at.value
  {
    TimeIsTheGreatestVouchedFor(pub, keys, loose);
    TimeIsTheGreatestVouchedFor(pub, keys, strict);
    var t := AsOf(pub, keys, strict).at.value;
    assert |Vouching(pub, keys, t)| >= Needed(strict);
  }
}
