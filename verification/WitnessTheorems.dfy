/**
 What witnessing guarantees against a venue that may keep any number of books.
 */
module WitnessTheorems {
  import opened Wrappers
  import opened Sequences
  import opened Chain
  import opened ChainTheorems
  import opened Witness
  import opened WitnessCore

  // ---------------------------------------------------------------- what a witness knows

  ghost predicate Notices(notices: map<string, int>, view: seq<Entry>) {
    && (forall h :: h in notices ==> h != "" && 0 <= notices[h] < |view| && view[notices[h]].payload.noticeHash == Some(h))
    && (forall i :: 0 <= i < |view| && Noted(view[i]) ==> view[i].payload.noticeHash.value in notices)
  }

  predicate Noted(e: Entry) { e.payload.noticeHash.Some? && e.payload.noticeHash.value != "" }

  /** The witness has verified exactly this book. */
  ghost predicate Follows(s: State, view: seq<Entry>) {
    && Book(view)
    && (s.lastCosigned.None? <==> view == [])
    && (view != [] ==> s.lastCosigned.value.seqNo == |view| - 1 && s.lastCosigned.value.hash == HeadHash(view))
    && (forall n :: n in s.seen <==> 0 <= n < |view|)
    && (forall n :: 0 <= n < |view| ==> s.seen[n] == view[n].hash)
    && Notices(s.noticesSeen, view)
  }

  /** The answer is what an honest server of `book` gives: its head, and the entries from the asked position in some order. */
  ghost predicate ServedFrom(book: seq<Entry>, last: Option<Head>, a: Answer) {
    && a.Served? && Book(book) && book != []
    && a.head.seqNo == |book| - 1 && a.head.hash == HeadHash(book)
    && multiset(a.entries) == multiset(From(book, if last.Some? then last.value.seqNo else 0))
  }

  ghost predicate Extends(book: seq<Entry>, view: seq<Entry>) {
    |view| <= |book| && SameHistory(view, book, |view|)
  }

  // ---------------------------------------------------------------- scanning a book

  ghost predicate VerifiedBetween(verified: map<int, Hash>, book: seq<Entry>, lo: nat, hi: nat) {
    && lo <= hi <= |book|
    && (forall n :: n in verified <==> lo <= n < hi)
    && (forall n :: lo <= n < hi ==> verified[n] == book[n].hash)
  }

  ghost predicate NoticesBetween(notices: map<string, int>, book: seq<Entry>, lo: nat, hi: nat) {
    && lo <= hi <= |book|
    && (forall h :: h in notices ==> h != "" && lo <= notices[h] < hi && book[notices[h]].payload.noticeHash == Some(h))
    && (forall i :: lo <= i < hi && Noted(book[i]) ==> book[i].payload.noticeHash.value in notices)
  }

  lemma {:induction false} ScanOfBook(book: seq<Entry>, lo: nat, k: nat, from: int, first: bool, f: Findings)
    requires Book(book) && 0 < k <= |book| && from < k
    requires f.prev == Some(book[k - 1].hash)
    requires VerifiedBetween(f.verified, book, lo, k) && NoticesBetween(f.notices, book, lo, k)
    ensures var r := Scan(book[k..], from, first, f);
      && r.Ok? && r.value.prev == Some(HeadHash(book))
      && VerifiedBetween(r.value.verified, book, lo, |book|)
      && NoticesBetween(r.value.notices, book, lo, |book|)
    decreases |book| - k
  {
    if k < |book| {
      var e := book[k];
      assert book[k..][0] == e && book[k..][1..] == book[k + 1..];
      OnlyTheFirstFollowsZero(book, k);
      var g := Findings(Some(e.hash), f.verified[e.seqNo := e.hash], Note(f.notices, e));
      NoteOne(f.notices, book, lo, k);
      ScanOfBook(book, lo, k + 1, from, first, g);
    }
  }

  lemma NoteOne(notices: map<string, int>, book: seq<Entry>, lo: nat, k: nat)
    requires Book(book) && k < |book| && NoticesBetween(notices, book, lo, k)
    ensures NoticesBetween(Note(notices, book[k]), book, lo, k + 1)
  {
  }

  lemma FindSeqInSlice(book: seq<Entry>, from: nat)
    requires Book(book) && from < |book|
    ensures FindSeq(book[from..], from) == Some(book[from])
  {
    assert book[from..][0] == book[from];
  }

  lemma SliceIsSorted(book: seq<Entry>, from: nat, entries: seq<Entry>)
    requires Book(book) && from <= |book| && multiset(entries) == multiset(From(book, from))
    ensures SortBy(entries, EntrySeq) == book[from..]
  {
    CutAt(book, 0, from);
    assert From(book, from) == book[from..];
    assert StrictlyAscending(book[from..], EntrySeq);
    SortByOfPermutation(book[from..], entries, EntrySeq);
  }

  lemma ScanFromGenesis(book: seq<Entry>)
    requires Book(book) && book != []
    ensures var r := Scan(book, 0, true, Findings(None, map[], map[]));
      && r.Ok? && r.value.prev == Some(HeadHash(book))
      && VerifiedBetween(r.value.verified, book, 0, |book|)
      && NoticesBetween(r.value.notices, book, 0, |book|)
  {
    OnlyTheFirstFollowsZero(book, 0);
    var f := Findings(Some(book[0].hash), map[book[0].seqNo := book[0].hash], Note(map[], book[0]));
    assert ScanOne(book[0], 0, true, Findings(None, map[], map[])) == Ok(f);
    NoteOne(map[], book, 0, 0);
    ScanOfBook(book, 0, 1, 0, true, f);
  }

  /** From a fresh start: the whole book is verified. */
  lemma ExamineFromGenesis(book: seq<Entry>, a: Answer)
    requires ServedFrom(book, None, a)
    ensures var r := Examine(None, a.head, a.entries);
      r.Ok? && VerifiedBetween(r.value.verified, book, 0, |book|) && NoticesBetween(r.value.notices, book, 0, |book|)
  {
    SliceIsSorted(book, 0, a.entries);
    assert book[0..] == book;
    FindSeqInSlice(book, 0);
    ScanFromGenesis(book);
  }

  /** From a cosigned head: exactly the entries after it are verified, if the book still has it. */
  lemma ExamineFromHead(view: seq<Entry>, last: Head, book: seq<Entry>, a: Answer)
    requires Book(view) && view != [] && last.seqNo == |view| - 1 && last.hash == HeadHash(view)
    requires ServedFrom(book, Some(last), a)
    ensures var r := Examine(Some(last), a.head, a.entries);
      && (r.Ok? <==> Extends(book, view))
      && (r.Ok? ==> VerifiedBetween(r.value.verified, book, |view|, |book|) && NoticesBetween(r.value.notices, book, |view|, |book|))
  {
    var n := |view| - 1;
    if |book| >= |view| {
      SliceIsSorted(book, n, a.entries);
      FindSeqInSlice(book, n);
      HashesTellHistories(view, book, n);
      if book[n].hash == view[n].hash {
        assert book[n..][0] == book[n] && book[n..][1..] == book[n + 1..];
        ScanOfBook(book, |view|, n + 1, n, false, Findings(Some(book[n].hash), map[], map[]));
      }
    }
  }

  lemma CosigningMeans(s: State, view: seq<Entry>, me: WitnessKey, book: seq<Entry>, a: Answer, at: int, now: int)
    requires Follows(s, view) && s.halted.None? && ServedFrom(book, s.lastCosigned, a)
    requires Extends(book, view) && |book| > |view| && a.accepted
    requires Examine(s.lastCosigned, a.head, a.entries).Ok?
    requires var f := Examine(s.lastCosigned, a.head, a.entries).value;
      VerifiedBetween(f.verified, book, |view|, |book|) && NoticesBetween(f.notices, book, |view|, |book|)
    ensures var (t, o) := Polled(s, me, a, at, now);
      o == Cosigned(SignReceipt(me, a.venueId, |book| - 1, HeadHash(book), at)) && Follows(t, book)
  {
    CosignFollows(s, view, book, a.head, Examine(s.lastCosigned, a.head, a.entries).value,
      SignReceipt(me, a.venueId, a.head.seqNo, a.head.hash, at), now);
  }

  /**
   Cosigning is extension. Whatever book the venue answers from, a poll cosigns exactly when that book
   strictly extends what the witness verified before; a book rolled back below the last cosigned head,
   or diverging at or before it, is reported as a fork and never cosigned.
   */
  lemma PollCosignsExactlyExtensions(s: State, view: seq<Entry>, me: WitnessKey, book: seq<Entry>, a: Answer, at: int, now: int)
    requires Follows(s, view) && s.halted.None? && ServedFrom(book, s.lastCosigned, a)
    ensures var (t, o) := Polled(s, me, a, at, now);
      && (o.ForkSeen? <==> !Extends(book, view))
      && (o.Cosigned? <==> Extends(book, view) && |book| > |view| && a.accepted)
      && (o.Cosigned? ==> o.receipt == SignReceipt(me, a.venueId, |book| - 1, HeadHash(book), at) && Follows(t, book))
      && (!o.Cosigned? ==> Follows(t, view) && t == s.(forks := t.forks))
  {
    ExamineMeans(s, view, book, a);
    if Extends(book, view) && |book| > |view| && a.accepted {
      CosigningMeans(s, view, me, book, a, at, now);
    } else {
      NotCosigned(s, view, me, book, a, at, now);
      NotCosigningFollows(s, Polled(s, me, a, at, now).0, view);
    }
  }

  lemma ExamineMeans(s: State, view: seq<Entry>, book: seq<Entry>, a: Answer)
    requires Follows(s, view) && ServedFrom(book, s.lastCosigned, a)
    ensures var r := Examine(s.lastCosigned, a.head, a.entries);
      && (r.Ok? <==> Extends(book, view))
      && (r.Ok? ==> VerifiedBetween(r.value.verified, book, |view|, |book|) && NoticesBetween(r.value.notices, book, |view|, |book|))
  {
    if view == [] { ExamineFromGenesis(book, a); } else { ExamineFromHead(view, s.lastCosigned.value, book, a); }
  }

  lemma NotCosigned(s: State, view: seq<Entry>, me: WitnessKey, book: seq<Entry>, a: Answer, at: int, now: int)
    requires Follows(s, view) && s.halted.None? && ServedFrom(book, s.lastCosigned, a)
    requires !(Extends(book, view) && |book| > |view| && a.accepted)
    requires Examine(s.lastCosigned, a.head, a.entries).Ok? <==> Extends(book, view)
    ensures var (t, o) := Polled(s, me, a, at, now);
      (o.ForkSeen? <==> !Extends(book, view)) && !o.Cosigned? && t == s.(forks := t.forks)
  {
    if view != [] && |book| == |view| { SameHeadExtends(view, book); }
  }

  lemma SameHeadExtends(view: seq<Entry>, book: seq<Entry>)
    requires Chained(view) && Chained(book) && |book| == |view| != 0
    ensures HeadHash(book) == HeadHash(view) <==> Extends(book, view)
  {
    HashesTellHistories(view, book, |view| - 1);
  }

  lemma NotCosigningFollows(s: State, t: State, view: seq<Entry>)
    requires Follows(s, view) && t == s.(forks := t.forks)
    ensures Follows(t, view)
  {
  }

  lemma CosignFollows(s: State, view: seq<Entry>, book: seq<Entry>, head: Head, f: Findings, r: Receipt, now: int)
    requires Follows(s, view) && Book(book) && book != [] && Extends(book, view)
    requires head.seqNo == |book| - 1 && head.hash == HeadHash(book)
    requires VerifiedBetween(f.verified, book, |view|, |book|) && NoticesBetween(f.notices, book, |view|, |book|)
    ensures Follows(CheckedWatch(Cosign(s, head, f, r), r, now), book)
  {
    var t := CheckedWatch(Cosign(s, head, f, r), r, now);
    forall n ensures n in t.seen <==> 0 <= n < |book| { }
    forall n | 0 <= n < |book| ensures t.seen[n] == book[n].hash {
      if n < |view| { assert SameBody(view[n], book[n]); }
    }
    NoticesMerge(s.noticesSeen, f.notices, view, book);
  }

  lemma NoticesMerge(old_: map<string, int>, new_: map<string, int>, view: seq<Entry>, book: seq<Entry>)
    requires Notices(old_, view) && Extends(book, view) && NoticesBetween(new_, book, |view|, |book|)
    ensures Notices(old_ + new_, book)
  {
    var m := old_ + new_;
    forall h | h in m ensures h != "" && 0 <= m[h] < |book| && book[m[h]].payload.noticeHash == Some(h) {
      if h !in new_ { assert SameBody(view[old_[h]], book[old_[h]]); }
    }
    forall i | 0 <= i < |book| && Noted(book[i]) ensures book[i].payload.noticeHash.value in m {
      if i < |view| { assert SameBody(view[i], book[i]); }
    }
  }

  // ---------------------------------------------------------------- head and slice of two moments

  /** The entries served are those of the first `m` of the book, from the asked position, in some order. */
  ghost predicate SliceFrom(book: seq<Entry>, last: Option<Head>, m: nat, a: Answer) {
    a.Served? && m <= |book| && multiset(a.entries) == multiset(From(book[..m], if last.Some? then last.value.seqNo else 0))
  }

  /** The head served is that of the first `n` entries. */
  ghost predicate HeadFrom(book: seq<Entry>, n: nat, a: Answer) {
    a.Served? && 0 < n <= |book| && a.head.seqNo == n - 1 && a.head.hash == book[n - 1].hash
  }

  lemma OnlyTheHeadDiffers(last: Option<Head>, h: Head, g: Head, entries: seq<Entry>)
    requires Examine(last, h, entries).Ok? && (last.Some? ==> g.seqNo >= last.value.seqNo) && g.seqNo >= -1
    ensures Examine(last, g, entries).Ok? <==> g.hash == h.hash
  {
  }

  lemma NothingServed(last: Option<Head>, h: Head, book: seq<Entry>, m: nat, entries: seq<Entry>)
    requires Book(book) && m <= |book| && m <= (if last.Some? then last.value.seqNo else 0)
    requires multiset(entries) == multiset(From(book[..m], if last.Some? then last.value.seqNo else 0))
    ensures Examine(last, h, entries).Err?
  {
    PrefixIsBook(book, m);
    CutAt(book[..m], 0, if last.Some? then last.value.seqNo else 0);
    assert From(book[..m], if last.Some? then last.value.seqNo else 0) == [];
    assert |entries| == |multiset(entries)| == 0;
  }

  lemma LongSliceDecides(s: State, view: seq<Entry>, book: seq<Entry>, n: nat, m: nat, a: Answer)
    requires Follows(s, view) && Book(book) && view <= book && |view| < n && HeadFrom(book, n, a) && SliceFrom(book, s.lastCosigned, m, a)
    requires |view| <= m && 0 < m
    ensures Examine(s.lastCosigned, a.head, a.entries).Ok? <==> book[m - 1].hash == book[n - 1].hash
  {
    PrefixIsBook(book, m);
    var b := a.(head := Head(m - 1, HeadHash(book[..m]), 0));
    assert ServedFrom(book[..m], s.lastCosigned, b);
    assert Extends(book[..m], view);
    ExamineMeans(s, view, book[..m], b);
    OnlyTheHeadDiffers(s.lastCosigned, b.head, a.head, a.entries);
  }

  lemma SliceDecides(s: State, view: seq<Entry>, book: seq<Entry>, n: nat, m: nat, a: Answer)
    requires Follows(s, view) && Book(book) && view <= book && |view| < n && HeadFrom(book, n, a) && SliceFrom(book, s.lastCosigned, m, a)
    ensures Examine(s.lastCosigned, a.head, a.entries).Ok? <==> m == n
  {
    if m < |view| || m == 0 {
      NothingServed(s.lastCosigned, a.head, book, m, a.entries);
    } else {
      LongSliceDecides(s, view, book, n, m, a);
      if book[n - 1].hash == book[m - 1].hash { HashFixesHistory(book, book, n - 1, m - 1); }
    }
  }

  /** A poll fetches the head, then the slice. Of one book that has grown since the last poll, it is a fork exactly when the slice is not that of the head. */
  lemma TornReadIsAFork(s: State, view: seq<Entry>, me: WitnessKey, book: seq<Entry>, n: nat, m: nat, a: Answer, at: int, now: int)
    requires Follows(s, view) && s.halted.None? && Book(book) && view <= book && |view| < n
    requires HeadFrom(book, n, a) && SliceFrom(book, s.lastCosigned, m, a)
    ensures Polled(s, me, a, at, now).1.ForkSeen? <==> m != n
  {
    SliceDecides(s, view, book, n, m, a);
  }

  // ---------------------------------------------------------------- every run of polls

  datatype PollStep = PollStep(book: seq<Entry>, answer: Answer, at: int, now: int)

  function RunPolls(s: State, me: WitnessKey, steps: seq<PollStep>): State
    decreases |steps|
  {
    if steps == [] then s else RunPolls(Polled(s, me, steps[0].answer, steps[0].at, steps[0].now).0, me, steps[1..])
  }

  /** Each answer comes from some book, a different one every time if the venue likes. */
  ghost predicate ServedThroughout(s: State, me: WitnessKey, steps: seq<PollStep>)
    decreases |steps|
  {
    steps == [] || (
      && ServedFrom(steps[0].book, s.lastCosigned, steps[0].answer)
      && ServedThroughout(Polled(s, me, steps[0].answer, steps[0].at, steps[0].now).0, me, steps[1..]))
  }

  lemma ExtendsTransitive(c: seq<Entry>, b: seq<Entry>, a: seq<Entry>)
    requires Extends(c, b) && Extends(b, a)
    ensures Extends(c, a)
  {
    forall k | 0 <= k < |a| ensures SameBody(a[k], c[k]) { assert SameBody(a[k], b[k]) && SameBody(b[k], c[k]); }
  }

  /** Every receipt the witness issued stands on what it has verified. */
  ghost predicate ReceiptsStand(s: State, me: WitnessKey) {
    forall r :: r in s.receipts ==> ReceiptStands(r, s.seen, me)
  }

  predicate ReceiptStands(r: Receipt, seen: map<int, Hash>, me: WitnessKey) {
    r.seqNo in seen && r.hash == seen[r.seqNo] && r.witnessId == me.witnessId && r.signedBy == Some(me.x)
  }

  /**
   Over any run of polls the witness ends with one book that extends the one it began with, and every
   receipt it ever issued is a position of that book: no two of its receipts can be for different histories.
   */
  lemma {:induction false} EveryRunOfPollsExtends(s: State, view: seq<Entry>, me: WitnessKey, steps: seq<PollStep>) returns (last: seq<Entry>)
    requires Follows(s, view) && ReceiptsStand(s, me) && ServedThroughout(s, me, steps)
    ensures Follows(RunPolls(s, me, steps), last) && Extends(last, view) && ReceiptsStand(RunPolls(s, me, steps), me)
    decreases |steps|
  {
    if steps == [] {
      last := view;
    } else {
      var p := steps[0];
      var t := Polled(s, me, p.answer, p.at, p.now).0;
      if s.halted.None? {
        PollCosignsExactlyExtensions(s, view, me, p.book, p.answer, p.at, p.now);
        PollKeepsReceipts(s, view, me, p.book, p.answer, p.at, p.now);
      }
      var next := if s.halted.None? && Polled(s, me, p.answer, p.at, p.now).1.Cosigned? then p.book else view;
      last := EveryRunOfPollsExtends(t, next, me, steps[1..]);
      ExtendsTransitive(last, next, view);
    }
  }

  lemma PollIssues(s: State, me: WitnessKey, a: Answer, at: int, now: int)
    ensures var (t, o) := Polled(s, me, a, at, now);
      t.receipts == if o.Cosigned? then s.receipts + [o.receipt] else s.receipts
  {
  }

  lemma PollKeepsReceipts(s: State, view: seq<Entry>, me: WitnessKey, book: seq<Entry>, a: Answer, at: int, now: int)
    requires Follows(s, view) && s.halted.None? && ServedFrom(book, s.lastCosigned, a) && ReceiptsStand(s, me)
    ensures ReceiptsStand(Polled(s, me, a, at, now).0, me)
  {
    PollCosignsExactlyExtensions(s, view, me, book, a, at, now);
    PollIssues(s, me, a, at, now);
    var (t, o) := Polled(s, me, a, at, now);
    if o.Cosigned? { CosigningKeepsReceipts(s, t, view, book, me, o.receipt); }
  }

  lemma CosigningKeepsReceipts(s: State, t: State, view: seq<Entry>, book: seq<Entry>, me: WitnessKey, r: Receipt)
    requires Follows(s, view) && Follows(t, book) && Extends(book, view) && ReceiptsStand(s, me)
    requires t.receipts == s.receipts + [r] && book != []
    requires r == SignReceipt(me, r.venueId, |book| - 1, HeadHash(book), r.at)
    ensures ReceiptsStand(t, me)
  {
    KnowledgeGrows(s, t, view, book);
    ReceiptsKept(s.receipts, r, s.seen, t.seen, me);
  }

  lemma KnowledgeGrows(s: State, t: State, view: seq<Entry>, book: seq<Entry>)
    requires Follows(s, view) && Follows(t, book) && Extends(book, view)
    ensures forall n :: n in s.seen ==> n in t.seen && t.seen[n] == s.seen[n]
  {
    forall n | n in s.seen ensures n in t.seen && t.seen[n] == s.seen[n] { assert SameBody(view[n], book[n]); }
  }

  lemma ReceiptsKept(rs: seq<Receipt>, r: Receipt, before: map<int, Hash>, after: map<int, Hash>, me: WitnessKey)
    requires forall q :: q in rs ==> ReceiptStands(q, before, me)
    requires forall n :: n in before ==> n in after && after[n] == before[n]
    requires ReceiptStands(r, after, me)
    ensures forall q :: q in rs + [r] ==> ReceiptStands(q, after, me)
  {
  }

  // ---------------------------------------------------------------- arbitrary answers

  /** `g` is `h` or stands somewhere below it in the chain `h` commits to. */
  ghost predicate Descends(h: Hash, g: Hash) { h == g || (h.H? && Descends(h.prev, g)) }

  lemma {:induction false} ScanDescends(es: seq<Entry>, from: int, f: Findings, g: Hash)
    requires f.prev.Some? && Descends(f.prev.value, g)
    requires forall i :: 0 <= i < |es| ==> es[i].seqNo > from
    ensures var r := Scan(es, from, false, f);
      r.Ok? ==> r.value.prev.Some? && Descends(r.value.prev.value, g)
  {
    if es != [] {
      var r := ScanOne(es[0], from, false, f);
      if r.Ok? { ScanDescends(es[1..], from, r.value, g); }
    }
  }

  function CountAt(es: seq<Entry>, n: int): nat {
    if es == [] then 0 else (if es[0].seqNo == n then 1 else 0) + CountAt(es[1..], n)
  }

  lemma {:induction false} InsertCounts(e: Entry, es: seq<Entry>, n: int)
    ensures CountAt(InsertBy(e, es, EntrySeq), n) == CountAt([e], n) + CountAt(es, n)
  {
    assert [e][1..] == [];
    var out := InsertBy(e, es, EntrySeq);
    if es == [] || EntrySeq(e) <= EntrySeq(es[0]) {
      assert out[1..] == es;
    } else {
      InsertCounts(e, es[1..], n);
      assert out[1..] == InsertBy(e, es[1..], EntrySeq);
    }
  }

  lemma {:induction false} SortCounts(es: seq<Entry>, n: int)
    ensures CountAt(SortBy(es, EntrySeq), n) == CountAt(es, n)
  {
    if es != [] {
      SortCounts(es[1..], n);
      InsertCounts(es[0], SortBy(es[1..], EntrySeq), n);
      assert [es[0]][1..] == [];
    }
  }

  lemma {:induction false} NoneLeftAt(es: seq<Entry>, n: int)
    requires CountAt(es, n) == 0
    ensures forall i :: 0 <= i < |es| ==> es[i].seqNo != n
  {
    if es != [] { NoneLeftAt(es[1..], n); }
  }

  lemma {:induction false} ScanReachesHead(es: seq<Entry>, from: int, f: Findings, g: Hash)
    requires Ascending(es, EntrySeq) && CountAt(es, from) <= 1
    requires FindSeq(es, from).Some? && FindSeq(es, from).value.hash == g
    ensures var r := Scan(es, from, false, f);
      r.Ok? ==> r.value.prev.Some? && Descends(r.value.prev.value, g)
  {
    var r := ScanOne(es[0], from, false, f);
    if r.Ok? {
      if es[0].seqNo == from {
        NoneLeftAt(es[1..], from);
        forall i | 0 <= i < |es[1..]| ensures es[1..][i].seqNo > from {
          assert EntrySeq(es[0]) <= EntrySeq(es[i + 1]);
        }
        ScanDescends(es[1..], from, r.value, g);
      } else {
        ScanReachesHead(es[1..], from, r.value, g);
      }
    }
  }

  /** Even against a server that makes everything up, a cosigned head descends from the one before, provided only one entry is offered at the witness's position. */
  lemma AnyCosignedHeadDescends(s: State, me: WitnessKey, a: Answer, at: int, now: int)
    requires s.lastCosigned.Some? && a.Served? && CountAt(a.entries, s.lastCosigned.value.seqNo) <= 1
    ensures Polled(s, me, a, at, now).1.Cosigned? ==> Descends(a.head.hash, s.lastCosigned.value.hash)
  {
    var last := s.lastCosigned.value;
    SortByKeeps(a.entries, EntrySeq);
    SortCounts(a.entries, last.seqNo);
    if Polled(s, me, a, at, now).1.Cosigned? {
      var es := SortBy(a.entries, EntrySeq);
      assert Examine(s.lastCosigned, a.head, a.entries).Ok?;
      ScanReachesHead(es, last.seqNo, Findings(Some(last.hash), map[], map[]), last.hash);
    }
  }

  /** The last entry offered at a position. */
  function LastAt(es: seq<Entry>, n: int): Option<Entry> {
    if es == [] then None
    else if LastAt(es[1..], n).Some? then LastAt(es[1..], n)
    else if es[0].seqNo == n then Some(es[0]) else None
  }

  lemma {:induction false} InsertKeepsLastAt(e: Entry, es: seq<Entry>, n: int)
    ensures LastAt(InsertBy(e, es, EntrySeq), n) == LastAt([e] + es, n)
  {
    assert ([e] + es)[1..] == es;
    var out := InsertBy(e, es, EntrySeq);
    if es == [] || EntrySeq(e) <= EntrySeq(es[0]) {
      assert out == [e] + es;
    } else {
      InsertKeepsLastAt(e, es[1..], n);
      assert ([e] + es[1..])[1..] == es[1..];
      assert out[1..] == InsertBy(e, es[1..], EntrySeq);
    }
  }

  /** Sorting is stable, so the last at a position is the last as served. */
  lemma {:induction false} SortKeepsLastAt(es: seq<Entry>, n: int)
    ensures LastAt(SortBy(es, EntrySeq), n) == LastAt(es, n)
  {
    if es != [] {
      var rest := SortBy(es[1..], EntrySeq);
      SortKeepsLastAt(es[1..], n);
      InsertKeepsLastAt(es[0], rest, n);
      assert ([es[0]] + rest)[1..] == rest;
    }
  }

  lemma {:induction false} FoundHasLast(es: seq<Entry>, n: int)
    ensures FindSeq(es, n).Some? <==> LastAt(es, n).Some?
    ensures LastAt(es, n).None? ==> forall i :: 0 <= i < |es| ==> es[i].seqNo != n
  {
    if es != [] {
      FoundHasLast(es[1..], n);
      assert forall i :: 0 < i < |es| ==> es[i] == es[1..][i - 1];
    }
  }

  /** A later entry offered has the hash the witness cosigned. */
  predicate Reappears(es: seq<Entry>, from: int, g: Hash) { exists i :: 0 <= i < |es| && es[i].seqNo > from && es[i].hash == g }

  lemma ReappearsInRest(es: seq<Entry>, from: int, g: Hash)
    requires es != []
    ensures Reappears(es, from, g) <==> (es[0].seqNo > from && es[0].hash == g) || Reappears(es[1..], from, g)
  {
    if i :| 0 <= i < |es| && es[i].seqNo > from && es[i].hash == g {
      if i > 0 { assert es[1..][i - 1] == es[i]; }
    }
    if i :| 0 <= i < |es[1..]| && es[1..][i].seqNo > from && es[1..][i].hash == g {
      assert es[i + 1] == es[1..][i];
    }
  }

  lemma {:induction false} TailDescends(es: seq<Entry>, from: int, f: Findings, g: Hash)
    requires f.prev.Some? && Scan(es, from, false, f).Ok? && forall i :: 0 <= i < |es| ==> es[i].seqNo > from
    ensures var r := Scan(es, from, false, f).value;
      r.prev.Some? && (Descends(r.prev.value, g) <==> Descends(f.prev.value, g) || Reappears(es, from, g))
  {
    if es != [] {
      assert es[0].hash == EntryHash(es[0]);
      TailDescends(es[1..], from, ScanOne(es[0], from, false, f).value, g);
      ReappearsInRest(es, from, g);
    }
  }

  lemma {:induction false} ScanStartsAfresh(es: seq<Entry>, from: int, f: Findings, g: Hash)
    requires Ascending(es, EntrySeq) && LastAt(es, from).Some? && Scan(es, from, false, f).Ok?
    ensures var r := Scan(es, from, false, f).value;
      r.prev.Some? && (Descends(r.prev.value, g) <==> Descends(LastAt(es, from).value.hash, g) || Reappears(es, from, g))
  {
    var next := ScanOne(es[0], from, false, f).value;
    ReappearsInRest(es, from, g);
    if LastAt(es[1..], from).Some? {
      LastIsAmong(es[1..], from);
      var j :| 0 <= j < |es[1..]| && es[1..][j].seqNo == from;
      assert EntrySeq(es[0]) <= EntrySeq(es[j + 1]);
      ScanStartsAfresh(es[1..], from, next, g);
    } else {
      FoundHasLast(es[1..], from);
      forall i | 0 <= i < |es[1..]| ensures es[1..][i].seqNo > from { assert EntrySeq(es[0]) <= EntrySeq(es[i + 1]); }
      TailDescends(es[1..], from, next, g);
    }
  }

  lemma {:induction false} LastIsAmong(es: seq<Entry>, n: int)
    requires LastAt(es, n).Some?
    ensures exists j :: 0 <= j < |es| && es[j].seqNo == n
  {
    if LastAt(es[1..], n).Some? {
      LastIsAmong(es[1..], n);
      var j :| 0 <= j < |es[1..]| && es[1..][j].seqNo == n;
      assert es[j + 1].seqNo == n;
    }
  }

  lemma {:induction false} ScannedAreHashed(es: seq<Entry>, from: int, f: Findings)
    requires Scan(es, from, false, f).Ok?
    ensures forall i :: 0 <= i < |es| && es[i].seqNo > from ==> es[i].hash == EntryHash(es[i])
  {
    if es != [] {
      ScannedAreHashed(es[1..], from, ScanOne(es[0], from, false, f).value);
      assert forall i :: 0 < i < |es| ==> es[i] == es[1..][i - 1];
    }
  }

  /**
   Exactly when a cosigned head descends from the one cosigned before it, whatever was offered: the last entry offered
   at the witness's position has a hash that descends from it, or a later entry has that very hash. If the cosigned
   hash names its own position, as every hash of a genuine entry does, the second cannot be.
   */
  lemma CosignedDescendsExactlyWhen(s: State, me: WitnessKey, a: Answer, at: int, now: int)
    requires s.lastCosigned.Some? && Polled(s, me, a, at, now).1.Cosigned?
    ensures var last := s.lastCosigned.value;
      && LastAt(a.entries, last.seqNo).Some?
      && (Descends(a.head.hash, last.hash) <==>
            Descends(LastAt(a.entries, last.seqNo).value.hash, last.hash) || Reappears(a.entries, last.seqNo, last.hash))
      && (last.hash.H? && last.hash.seqNo == last.seqNo ==> !Reappears(a.entries, last.seqNo, last.hash))
  {
    var last := s.lastCosigned.value;
    var es, f := SortBy(a.entries, EntrySeq), Findings(Some(last.hash), map[], map[]);
    assert Examine(s.lastCosigned, a.head, a.entries).Ok?;
    SortByKeeps(a.entries, EntrySeq);
    SortByMembers(a.entries, EntrySeq);
    FoundHasLast(es, last.seqNo);
    SortKeepsLastAt(a.entries, last.seqNo);
    ScanStartsAfresh(es, last.seqNo, f, last.hash);
    ScannedAreHashed(es, last.seqNo, f);
    SameReappearance(es, a.entries, last.seqNo, last.hash);
  }

  lemma SameReappearance(a: seq<Entry>, b: seq<Entry>, from: int, g: Hash)
    requires forall e :: e in a <==> e in b
    ensures Reappears(a, from, g) <==> Reappears(b, from, g)
  {
    if i :| 0 <= i < |a| && a[i].seqNo > from && a[i].hash == g { assert a[i] in b; }
    if i :| 0 <= i < |b| && b[i].seqNo > from && b[i].hash == g { assert b[i] in a; }
  }

  /** Two entries at that position defeat it: only the first is compared with the cosigned hash, and the second is taken on trust. */
  lemma TwoEntriesAtTheHeadDefeatTheCheck(s: State, me: WitnessKey, genuine: Entry, other: Hash, at: int, now: int) returns (a: Answer)
    requires s.lastCosigned.Some? && s.halted.None?
    requires genuine.seqNo == s.lastCosigned.value.seqNo && genuine.hash == s.lastCosigned.value.hash
    requires !Descends(other, genuine.hash)
    ensures a.Served? && CountAt(a.entries, genuine.seqNo) == 2
    ensures Polled(s, me, a, at, now).1.Cosigned? && !Descends(a.head.hash, genuine.hash)
  {
    var forged := genuine.(hash := other);
    var es := [genuine, forged];
    var n := genuine.seqNo;
    a := Served(Head(n + 1, other, 0), "", es, true);
    assert es[1..] == [forged] && [forged][1..] == [];
    assert CountAt(es, n) == 1 + CountAt([forged], n) == 2 + CountAt([], n);
    assert SortBy([forged], EntrySeq) == [forged];
    assert SortBy(es, EntrySeq) == es;
    var f := Findings(Some(genuine.hash), map[], map[]);
    assert Scan([forged], n, false, f) == Ok(f.(prev := Some(other))) by {
      assert Scan([], n, false, f.(prev := Some(other))) == Ok(f.(prev := Some(other)));
    }
    assert Scan(es, n, false, f) == Scan([forged], n, false, f);
    assert Examine(s.lastCosigned, a.head, es).Ok?;
    assert Polled(s, me, a, at, now).1.Cosigned?;
  }
}
