/**
 On a well-formed root log the pin does not matter: whichever root a verifier pinned, and however
 the log was arranged when it arrived, the walk gives one answer.
 */
module RootLogPins {
  import opened Wrappers
  import opened Sequences
  import opened RootLog

  /** One unbroken succession: consecutive sequence numbers, distinct keys, every link proven both ways. */
  ghost predicate WellFormed(g: seq<RootEvent>) {
    && g != []
    && Predecessor(g[0]).None?
    && (forall i :: 0 <= i < |g| ==> SelfSigned(g[i]) && g[i].seqNo == g[0].seqNo + i)
    && (forall i :: 0 < i < |g| ==> LinkedAt(g, i))
    && (forall i, j :: 0 <= i < j < |g| ==> g[i].rootKey.x != g[j].rootKey.x)
  }

  ghost predicate LinkedAt(g: seq<RootEvent>, i: int)
    requires 0 < i < |g|
  {
    Succeeds(g[i - 1], g[i])
  }

  /** What every walk should report about root `i`: untrusted from the moment its successor declared, if it did. */
  function InfoAt(g: seq<RootEvent>, i: nat): RootInfo
    requires i < |g|
  {
    RootInfo(g[i].rootKey, g[i].seqNo, if i + 1 < |g| then DeclaredBy(g[i + 1]) else None)
  }

  ghost predicate ReportedAt(roots: map<Digest, RootInfo>, g: seq<RootEvent>, i: nat)
    requires i < |g|
  {
    g[i].rootKid in roots && roots[g[i].rootKid] == InfoAt(g, i)
  }

  ghost predicate Covers(roots: map<Digest, RootInfo>, g: seq<RootEvent>, lo: nat, hi: nat) {
    && lo <= hi < |g|
    && (forall k :: k in roots ==> exists i :: lo <= i <= hi && g[i].rootKid == k)
    && (forall i :: lo <= i < hi ==> ReportedAt(roots, g, i))
    && g[hi].rootKid in roots && roots[g[hi].rootKid] == RootInfo(g[hi].rootKey, g[hi].seqNo, None)
  }

  ghost predicate Describes(w: RootWalk, g: seq<RootEvent>) {
    && g != []
    && Covers(w.roots, g, 0, |g| - 1)
    && w.current == CurrentOf(g[|g| - 1])
    && w.rejected == []
  }

  lemma DescriptionIsUnique(v: RootWalk, w: RootWalk, g: seq<RootEvent>)
    requires Describes(v, g) && Describes(w, g)
    ensures v == w
  {
    forall k ensures k in v.roots <==> k in w.roots
      ensures k in v.roots ==> v.roots[k] == w.roots[k]
    {
      if k in v.roots || k in w.roots {
        var i :| 0 <= i <= |g| - 1 && g[i].rootKid == k;
        if i < |g| - 1 { assert ReportedAt(v.roots, g, i) && ReportedAt(w.roots, g, i); }
      }
    }
    assert v.roots == w.roots;
  }

  lemma {:induction false} FindStartAt(g: seq<RootEvent>, pinned: Jwk, i: nat)
    requires i < |g| && IsStart(g[i], pinned)
    requires forall j :: 0 <= j < i ==> g[j].rootKey.x != g[i].rootKey.x
    ensures FindStart(g, pinned) == Some(g[i])
  {
    if i > 0 {
      assert g[1..][i - 1] == g[i];
      FindStartAt(g[1..], pinned, i - 1);
    }
  }

  lemma {:induction false} FindParentAt(g: seq<RootEvent>, i: nat, first: int)
    requires i < |g| && forall j :: 0 <= j < |g| ==> g[j].seqNo == first + j
    ensures FindParent(g, g[i].rootKid, g[i].seqNo) == Some(g[i])
  {
    if i > 0 {
      assert g[1..][i - 1] == g[i];
      FindParentAt(g[1..], i - 1, first + 1);
    }
  }

  lemma {:induction false} AboveOfConsecutive(g: seq<RootEvent>, first: int, n: int)
    requires forall j :: 0 <= j < |g| ==> g[j].seqNo == first + j
    ensures first > n ==> Above(g, n) == g
    ensures 0 <= n - first < |g| ==> Above(g, n) == g[n - first + 1..]
  {
    if g != [] {
      AboveOfConsecutive(g[1..], first + 1, n);
      assert g == [g[0]] + g[1..];
      assert g[1..] == g[1..][0..];
    }
  }

  ghost predicate DistinctKids(g: seq<RootEvent>) {
    forall i, j :: 0 <= i < j < |g| ==> g[i].rootKid != g[j].rootKid
  }

  lemma KidsAreDistinct(g: seq<RootEvent>)
    requires WellFormed(g)
    ensures DistinctKids(g)
  {
    forall i, j | 0 <= i < j < |g| ensures g[i].rootKid != g[j].rootKid {
      assert SelfSigned(g[i]) && SelfSigned(g[j]);
    }
  }

  lemma PredecessorCovers(g: seq<RootEvent>, c: nat, s: nat, roots: map<Digest, RootInfo>)
    requires DistinctKids(g) && 0 < c && Covers(roots, g, c, s)
    ensures Covers(roots[g[c - 1].rootKid := InfoAt(g, c - 1)], g, c - 1, s)
  {
    var kid := g[c - 1].rootKid;
    var more := roots[kid := InfoAt(g, c - 1)];
    forall k | k in more ensures exists i :: c - 1 <= i <= s && g[i].rootKid == k {
      if k == kid {
        assert g[c - 1].rootKid == k;
      } else {
        var i :| c <= i <= s && g[i].rootKid == k;
      }
    }
    forall i | c - 1 <= i < s ensures ReportedAt(more, g, i) {
      if i >= c { assert ReportedAt(roots, g, i); }
    }
  }

  lemma AdmitCovers(g: seq<RootEvent>, k: nat, roots: map<Digest, RootInfo>)
    requires DistinctKids(g) && k + 1 < |g| && Covers(roots, g, 0, k)
    ensures Covers(Admit(roots, g[k], g[k + 1]), g, 0, k + 1)
  {
    var more := Admit(roots, g[k], g[k + 1]);
    assert g[k].rootKid != g[k + 1].rootKid;
    assert ReportedAt(more, g, k);
    forall i | 0 <= i < k ensures ReportedAt(more, g, i) {
      assert ReportedAt(roots, g, i);
    }
    forall d | d in more ensures exists i :: 0 <= i <= k + 1 && g[i].rootKid == d {
      if d == g[k + 1].rootKid {
      } else {
        assert d in roots;
        var i :| 0 <= i <= k && g[i].rootKid == d;
      }
    }
  }

  lemma {:induction false} BackwardStep(g: seq<RootEvent>, c: nat, roots: map<Digest, RootInfo>)
    requires WellFormed(g) && 0 < c < |g|
    ensures Backward(g, g[c], roots) == Backward(g, g[c - 1], roots[g[c - 1].rootKid := InfoAt(g, c - 1)])
  {
    FindParentAt(g, c - 1, g[0].seqNo);
    assert SelfSigned(g[c - 1]) && LinkedAt(g, c);
  }

  lemma {:induction false} BackwardCovers(g: seq<RootEvent>, c: nat, s: nat, roots: map<Digest, RootInfo>)
    requires WellFormed(g) && c <= s && Covers(roots, g, c, s)
    ensures Backward(g, g[c], roots).1 == [] && Covers(Backward(g, g[c], roots).0, g, 0, s)
    decreases c
  {
    if c > 0 {
      BackwardStep(g, c, roots);
      KidsAreDistinct(g);
      PredecessorCovers(g, c, s, roots);
      BackwardCovers(g, c - 1, s, roots[g[c - 1].rootKid := InfoAt(g, c - 1)]);
    }
  }

  lemma {:induction false} ForwardCovers(g: seq<RootEvent>, k: nat, roots: map<Digest, RootInfo>)
    requires WellFormed(g) && Covers(roots, g, 0, k)
    ensures Describes(Forward(g[k + 1..], g[k], roots, []), g)
    decreases |g| - k
  {
    if k + 1 < |g| {
      var rest := g[k + 1..];
      assert rest[0] == g[k + 1] && rest[1..] == g[k + 2..];
      assert LinkedAt(g, k + 1);
      KidsAreDistinct(g);
      AdmitCovers(g, k, roots);
      ForwardCovers(g, k + 1, Admit(roots, g[k], g[k + 1]));
    }
  }

  /** From any root of the log, over any arrangement of it: all roots, their untrusted-from times, the last one current, nothing rejected. */
  lemma WalkDescribesLog(g: seq<RootEvent>, log: seq<RootEvent>, pinned: Jwk, i: nat)
    requires WellFormed(g) && multiset(log) == multiset(g)
    requires i < |g| && pinned.x == g[i].rootKey.x && KidOf(pinned) == g[i].rootKid
    ensures Describes(Walk(pinned, log), g)
  {
    WellFormedAscends(g);
    SortByOfPermutation(g, log, BySeq);
    FindStartAt(g, pinned, i);
    WalkFromDescribes(g, i);
  }

  lemma WellFormedAscends(g: seq<RootEvent>)
    requires WellFormed(g)
    ensures StrictlyAscending(g, BySeq)
  {
  }

  lemma WalkFromDescribes(g: seq<RootEvent>, i: nat)
    requires WellFormed(g) && i < |g|
    ensures Describes(WalkFrom(g, g[i]), g)
  {
    var seed := map[g[i].rootKid := RootInfo(g[i].rootKey, g[i].seqNo, None)];
    BackwardCovers(g, i, i, seed);
    AboveOfConsecutive(g, g[0].seqNo, g[i].seqNo);
    ForwardCovers(g, i, Backward(g, g[i], seed).0);
  }

  lemma PinDoesNotMatter(g: seq<RootEvent>, a: seq<RootEvent>, b: seq<RootEvent>, p: Jwk, i: nat, q: Jwk, j: nat)
    requires WellFormed(g) && multiset(a) == multiset(g) && multiset(b) == multiset(g)
    requires i < |g| && p.x == g[i].rootKey.x && KidOf(p) == g[i].rootKid
    requires j < |g| && q.x == g[j].rootKey.x && KidOf(q) == g[j].rootKid
    ensures Walk(p, a) == Walk(q, b)
  {
    WalkDescribesLog(g, a, p, i);
    WalkDescribesLog(g, b, q, j);
    DescriptionIsUnique(Walk(p, a), Walk(q, b), g);
  }
}
