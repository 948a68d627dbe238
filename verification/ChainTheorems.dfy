/**
 What the hash chain fixes: a head fixes its history, a divergence never heals, and every way the
 venue has of producing a ledger produces one that verifies.
 */
module ChainTheorems {
  import opened Chain

  /** Everything of an entry its hash covers. */
  predicate SameBody(a: Entry, b: Entry) {
    a.seqNo == b.seqNo && ContentOf(a) == ContentOf(b) && a.prevHash == b.prevHash && a.hash == b.hash
  }

  ghost predicate SameHistory(a: seq<Entry>, b: seq<Entry>, n: nat) {
    n <= |a| && n <= |b| && forall k :: 0 <= k < n ==> SameBody(a[k], b[k])
  }

  lemma OnlyTheFirstFollowsZero(es: seq<Entry>, i: nat)
    requires Chained(es) && i < |es|
    ensures es[i].prevHash == Zero <==> i == 0
    ensures i > 0 ==> es[i].prevHash == es[i - 1].hash
    ensures es[i].hash == EntryHash(es[i])
  {
    assert LinkAt(es, i);
    if i > 0 { assert LinkAt(es, i - 1); }
  }

  /** Equal hashes in two chains stand at the same height and have the same history below them. */
  lemma {:induction false} HashFixesHistory(a: seq<Entry>, b: seq<Entry>, i: nat, j: nat)
    requires Chained(a) && Chained(b) && i < |a| && j < |b| && a[i].hash == b[j].hash
    ensures i == j && SameHistory(a, b, i + 1)
    decreases i
  {
    OnlyTheFirstFollowsZero(a, i);
    OnlyTheFirstFollowsZero(b, j);
    assert i == 0 <==> j == 0;
    if i > 0 { HashFixesHistory(a, b, i - 1, j - 1); }
  }

  /** Any two chains that end in the same hash are one history, entry for entry. */
  lemma SameHeadSameHistory(a: seq<Entry>, b: seq<Entry>)
    requires Chained(a) && Chained(b) && HeadHash(a) == HeadHash(b)
    ensures |a| == |b| && SameHistory(a, b, |a|)
  {
    if a != [] { OnlyTheFirstFollowsZero(a, |a| - 1); }
    if b != [] { OnlyTheFirstFollowsZero(b, |b| - 1); }
    assert a == [] <==> b == [];
    if a != [] { HashFixesHistory(a, b, |a| - 1, |b| - 1); }
  }

  /** Chains that differ anywhere at or below a position differ in hash at that position, and only then. */
  lemma HashesTellHistories(a: seq<Entry>, b: seq<Entry>, j: nat)
    requires Chained(a) && Chained(b) && j < |a| && j < |b|
    ensures a[j].hash == b[j].hash <==> SameHistory(a, b, j + 1)
    ensures a[j].hash != b[j].hash <==> exists i :: 0 <= i <= j && a[i].hash != b[i].hash
  {
    if a[j].hash == b[j].hash { HashFixesHistory(a, b, j, j); }
  }

  // ---------------------------------------------------------------- every run keeps a book

  lemma AppendKeepsBook(es: seq<Entry>, typ: EntryType, payload: Payload, ts: int, key: KeyPair)
    requires Book(es)
    ensures Book(es + [Seal(|es|, ts, typ, payload, HeadHash(es), key)])
  {
    var out := es + [Seal(|es|, ts, typ, payload, HeadHash(es), key)];
    forall i | 0 <= i < |out| ensures LinkAt(out, i) {
      assert out[..i] == if i < |es| then es[..i] else es;
      if i < |es| { assert LinkAt(es, i); }
    }
  }

  lemma PrefixIsBook(es: seq<Entry>, n: nat)
    requires Book(es) && n <= |es|
    ensures Book(es[..n])
  {
    forall i | 0 <= i < n ensures LinkAt(es[..n], i) {
      assert LinkAt(es, i) && es[..n][..i] == es[..i];
    }
  }

  /** How many of `size` entries numbered from `first` stand below `n`. */
  function Below(first: int, size: nat, n: int): (k: nat)
    ensures k <= size
  {
    if n <= first then 0 else if n - first < size then n - first else size
  }

  ghost predicate Numbered(es: seq<Entry>, first: int) { forall i :: 0 <= i < |es| ==> es[i].seqNo == first + i }

  lemma {:induction false} FromAt(es: seq<Entry>, first: int, n: int)
    requires Numbered(es, first)
    ensures From(es, n) == es[Below(first, |es|, n)..]
  {
    if es != [] {
      FromAt(es[1..], first + 1, n);
      var k := Below(first, |es|, n);
      if k > 0 { assert es[k..] == es[1..][k - 1..]; } else { assert es == [es[0]] + es[1..]; }
    }
  }

  lemma {:induction false} UpToAt(es: seq<Entry>, first: int, n: int)
    requires Numbered(es, first)
    ensures UpTo(es, n) == es[..Below(first, |es|, n + 1)]
  {
    if es != [] {
      UpToAt(es[1..], first + 1, n);
      var k := Below(first, |es|, n + 1);
      if k > 0 { assert es[..k] == [es[0]] + es[1..][..k - 1]; }
    }
  }

  lemma CutAt(es: seq<Entry>, first: int, n: int)
    requires Numbered(es, first)
    ensures n < first ==> UpTo(es, n) == [] && From(es, n) == es
    ensures 0 <= n - first < |es| ==> UpTo(es, n) == es[..n - first + 1] && From(es, n) == es[n - first..]
    ensures n - first >= |es| ==> UpTo(es, n) == es && From(es, n) == []
  {
    FromAt(es, first, n);
    UpToAt(es, first, n);
  }

  datatype Op = Append(typ: EntryType, payload: Payload, ts: int, key: KeyPair) | Truncate(n: int)

  function Apply(es: seq<Entry>, op: Op): seq<Entry> {
    match op
    case Append(typ, payload, ts, key) => es + [Seal(|es|, ts, typ, payload, HeadHash(es), key)]
    case Truncate(n) => UpTo(es, n)
  }

  function RunOps(es: seq<Entry>, ops: seq<Op>): seq<Entry>
    decreases |ops|
  {
    if ops == [] then es else RunOps(Apply(es, ops[0]), ops[1..])
  }

  /** However appends and roll-backs interleave, the ledger is a book: numbered by position and accepted by verification. */
  lemma {:induction false} EveryRunKeepsABook(es: seq<Entry>, ops: seq<Op>)
    requires Book(es)
    ensures Book(RunOps(es, ops))
    decreases |ops|
  {
    if ops != [] {
      match ops[0] {
        case Append(typ, payload, ts, key) => AppendKeepsBook(es, typ, payload, ts, key);
        case Truncate(n) =>
          CutAt(es, 0, n);
          PrefixIsBook(es, if n < 0 then 0 else if n < |es| then n + 1 else |es|);
      }
      EveryRunKeepsABook(Apply(es, ops[0]), ops[1..]);
    }
  }

  // ---------------------------------------------------------------- two books

  function Contents(es: seq<Entry>): seq<Content> {
    seq(|es|, i requires 0 <= i < |es| => ContentOf(es[i]))
  }

  lemma {:induction false} ResealIsBook(base: seq<Entry>, kept: seq<Entry>, key: KeyPair)
    requires Book(base)
    ensures var out := Reseal(base, kept, key);
      && Book(out) && base <= out
      && Contents(out) == Contents(base) + Contents(kept)
      && forall i :: |base| <= i < |out| ==> SignedBy(out[i], key.x)
    decreases |kept|
  {
    if kept != [] {
      AppendKeepsBook(base, kept[0].typ, kept[0].payload, kept[0].ts, key);
      var next := base + [Seal(|base|, kept[0].ts, kept[0].typ, kept[0].payload, HeadHash(base), key)];
      ResealIsBook(next, kept[1..], key);
      assert Contents(next) == Contents(base) + [ContentOf(kept[0])];
      assert Contents(kept) == [ContentOf(kept[0])] + Contents(kept[1..]);
      assert Reseal(base, kept, key)[|base|] == next[|base|];
    } else {
      assert Contents(base) + Contents(kept) == Contents(base);
    }
  }

  /** The alternative book also verifies, shares the real one up to `n`, and says what the kept entries say. */
  lemma ForkIsBook(es: seq<Entry>, n: nat, exclude: Entry -> bool, key: KeyPair)
    requires Book(es) && n < |es|
    ensures var fork := ForkOf(es, n, exclude, key);
      && Book(fork) && es[..n + 1] <= fork
      && Contents(fork) == Contents(es[..n + 1]) + Contents(Kept(es, n, exclude))
      && forall i :: n < i < |fork| ==> SignedBy(fork[i], key.x)
  {
    CutAt(es, 0, n);
    PrefixIsBook(es, n + 1);
    ResealIsBook(es[..n + 1], Kept(es, n, exclude), key);
  }

  lemma ContentsFixBook(a: seq<Entry>, b: seq<Entry>, n: nat)
    requires Book(a) && Book(b) && n <= |a| && n <= |b|
    ensures Contents(a[..n]) == Contents(b[..n]) <==> SameHistory(a, b, n)
  {
    var c, d := Contents(a[..n]), Contents(b[..n]);
    if c == d { ContentsFixBookUpTo(a, b, n); }
    if SameHistory(a, b, n) {
      forall k | 0 <= k < n ensures c[k] == d[k] { assert SameBody(a[k], b[k]); }
    }
  }

  lemma {:induction false} ContentsFixBookUpTo(a: seq<Entry>, b: seq<Entry>, n: nat)
    requires Book(a) && Book(b) && n <= |a| && n <= |b| && Contents(a[..n]) == Contents(b[..n])
    ensures SameHistory(a, b, n)
  {
    if n > 0 {
      assert Contents(a[..n - 1]) == Contents(a[..n])[..n - 1] && Contents(b[..n - 1]) == Contents(b[..n])[..n - 1];
      ContentsFixBookUpTo(a, b, n - 1);
      assert ContentOf(a[n - 1]) == Contents(a[..n])[n - 1] == Contents(b[..n])[n - 1] == ContentOf(b[n - 1]);
      assert LinkAt(a, n - 1) && LinkAt(b, n - 1);
      if n > 1 { assert SameBody(a[n - 2], b[n - 2]); }
    }
  }

  /**
   Where the two books part. At a later position they still show the same hash exactly when the kept
   entries say, in order, what the real entries up to there say.
   */
  lemma ForkPartsWhereContentsPart(es: seq<Entry>, n: nat, exclude: Entry -> bool, key: KeyPair, j: nat)
    requires Book(es) && n < j < |es| && j - n <= |Kept(es, n, exclude)|
    ensures |ForkOf(es, n, exclude, key)| == n + 1 + |Kept(es, n, exclude)|
    ensures ForkOf(es, n, exclude, key)[j].hash == es[j].hash
      <==> Contents(Kept(es, n, exclude))[..j - n] == Contents(es[n + 1..j + 1])
  {
    var fork := ForkOf(es, n, exclude, key);
    var kept := Kept(es, n, exclude);
    ForkIsBook(es, n, exclude, key);
    assert |Contents(fork)| == |fork|;
    HashesTellHistories(es, fork, j);
    ContentsFixBook(es, fork, j + 1);
    assert Contents(fork[..j + 1]) == Contents(fork)[..j + 1] == Contents(es[..n + 1]) + Contents(kept)[..j - n];
    assert es[..j + 1] == es[..n + 1] + es[n + 1..j + 1];
    assert Contents(es[..j + 1]) == Contents(es[..n + 1]) + Contents(es[n + 1..j + 1]);
    var l := Contents(es[..n + 1]);
    if l + Contents(kept)[..j - n] == l + Contents(es[n + 1..j + 1]) {
      assert (l + Contents(kept)[..j - n])[|l|..] == Contents(kept)[..j - n];
      assert (l + Contents(es[n + 1..j + 1]))[|l|..] == Contents(es[n + 1..j + 1]);
    }
  }
}
