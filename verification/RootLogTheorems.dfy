/**
 What the walk over a root log promises, whatever else the log carries.
 */
module RootLogTheorems {
  import opened Wrappers
  import opened Sequences
  import opened RootLog

  /** Pre-rotation's ceremony rule: a key signs the one event that establishes it and no other. */
  ghost predicate OneEventPerKey(log: seq<RootEvent>) {
    forall e, f :: e in log && f in log && SelfSigned(e) && SelfSigned(f) && e.rootKey.x == f.rootKey.x ==> e == f
  }

  /** The events a forward walk from `cur` accepts, in order. */
  function Followers(es: seq<RootEvent>, cur: RootEvent): seq<RootEvent> {
    if es == [] then []
    else if Succeeds(cur, es[0]) then [es[0]] + Followers(es[1..], es[0])
    else Followers(es[1..], cur)
  }

  /** The pinned root's event and every successor the walk reaches; empty when the log does not know the pin. */
  function ForwardChain(pinned: Jwk, log: seq<RootEvent>): seq<RootEvent> {
    var sorted := SortBy(log, BySeq);
    var start := FindStart(sorted, pinned);
    if start.None? then [] else [start.value] + Followers(Above(sorted, start.value.seqNo), start.value)
  }

  // ---------------------------------------------------------------- the walk and its chain

  lemma {:induction false} ForwardReachesLast(es: seq<RootEvent>, cur: RootEvent, roots: map<Digest, RootInfo>, rejected: seq<Rejection>)
    ensures var c := [cur] + Followers(es, cur);
      Forward(es, cur, roots, rejected).current == CurrentOf(c[|c| - 1])
  {
    if es == [] {
    } else if Succeeds(cur, es[0]) {
      ForwardReachesLast(es[1..], es[0], Admit(roots, cur, es[0]), rejected);
    } else {
      ForwardReachesLast(es[1..], cur, roots, rejected + [Rejection(es[0].seqNo, WhyNot(cur, es[0]))]);
    }
  }

  lemma {:induction false} ForwardTrusts(es: seq<RootEvent>, cur: RootEvent, roots: map<Digest, RootInfo>, rejected: seq<Rejection>)
    ensures roots.Keys <= Forward(es, cur, roots, rejected).roots.Keys
    ensures forall f :: f in Followers(es, cur) ==> f.rootKid in Forward(es, cur, roots, rejected).roots
  {
    if es == [] {
    } else if Succeeds(cur, es[0]) {
      ForwardTrusts(es[1..], es[0], Admit(roots, cur, es[0]), rejected);
      assert es[0].rootKid in Admit(roots, cur, es[0]).Keys;
    } else {
      ForwardTrusts(es[1..], cur, roots, rejected + [Rejection(es[0].seqNo, WhyNot(cur, es[0]))]);
    }
  }

  /** The current root of a walk is the last root of its chain, and every root of the chain is trusted by it. */
  lemma WalkEndsWhereChainEnds(pinned: Jwk, log: seq<RootEvent>)
    ensures var c := ForwardChain(pinned, log);
      && (c == [] ==> Walk(pinned, log) == Alone(pinned))
      && (c != [] ==> Walk(pinned, log).current == CurrentOf(c[|c| - 1]))
      && forall e :: e in c ==> e.rootKid in Walk(pinned, log).roots
  {
    var sorted := SortBy(log, BySeq);
    FindStartIsMember(sorted, pinned);
    var start := FindStart(sorted, pinned);
    if start.Some? {
      var s := start.value;
      var r := Backward(sorted, s, map[s.rootKid := RootInfo(s.rootKey, s.seqNo, None)]);
      BackwardGrows(sorted, s, map[s.rootKid := RootInfo(s.rootKey, s.seqNo, None)]);
      ForwardReachesLast(Above(sorted, s.seqNo), s, r.0, r.1);
      ForwardTrusts(Above(sorted, s.seqNo), s, r.0, r.1);
    }
  }

  lemma {:induction false} BackwardGrows(es: seq<RootEvent>, child: RootEvent, roots: map<Digest, RootInfo>)
    requires child in es
    ensures roots.Keys <= Backward(es, child, roots).0.Keys
    decreases child.seqNo - Floor(es)
  {
    if Predecessor(child).Some? {
      var found := FindParent(es, Predecessor(child).value, child.seqNo - 1);
      if found.Some? && Vouches(found.value, child) {
        FindParentIsMember(es, Predecessor(child).value, child.seqNo - 1);
        var p := found.value;
        BackwardGrows(es, p, roots[p.rootKid := RootInfo(p.rootKey, p.seqNo, DeclaredBy(child))]);
      }
    }
  }

  // ---------------------------------------------------------------- nobody can be walked elsewhere

  lemma {:induction false} FollowersSplit(es: seq<RootEvent>, cur: RootEvent) returns (i: nat)
    requires Followers(es, cur) != []
    ensures i < |es| && Succeeds(cur, es[i]) && Followers(es, cur) == [es[i]] + Followers(es[i + 1..], es[i])
  {
    if Succeeds(cur, es[0]) {
      i := 0;
    } else {
      var k := FollowersSplit(es[1..], cur);
      i := k + 1;
      assert es[1..][k + 1..] == es[i + 1..];
    }
  }

  ghost predicate OneEventPerKeyAcross(a: seq<RootEvent>, b: seq<RootEvent>) {
    forall e, f :: e in a && f in b && SelfSigned(e) && SelfSigned(f) && e.rootKey.x == f.rootKey.x ==> e == f
  }

  lemma {:induction false} FollowersAgree(a: seq<RootEvent>, b: seq<RootEvent>, cur: RootEvent)
    requires OneEventPerKeyAcross(a, b)
    ensures Followers(a, cur) <= Followers(b, cur) || Followers(b, cur) <= Followers(a, cur)
    decreases |a|
  {
    if Followers(a, cur) != [] && Followers(b, cur) != [] {
      var i := FollowersSplit(a, cur);
      var j := FollowersSplit(b, cur);
      assert a[i] in a && b[j] in b;
      FollowersAgree(a[i + 1..], b[j + 1..], a[i]);
    }
  }

  lemma {:induction false} AboveMembers(es: seq<RootEvent>, n: int)
    ensures forall e :: e in Above(es, n) <==> e in es && e.seqNo > n
  {
    if es != [] {
      AboveMembers(es[1..], n);
      assert forall e :: e in es <==> e == es[0] || e in es[1..];
    }
  }

  lemma StartIsUnique(pinned: Jwk, a: seq<RootEvent>, b: seq<RootEvent>)
    requires OneEventPerKeyAcross(a, b)
    ensures var s, t := FindStart(SortBy(a, BySeq), pinned), FindStart(SortBy(b, BySeq), pinned);
      s.Some? && t.Some? ==> s == t
    ensures forall e :: e in b && IsStart(e, pinned) ==> FindStart(SortBy(b, BySeq), pinned).Some?
  {
    SortByMembers(a, BySeq);
    SortByMembers(b, BySeq);
    FindStartIsMember(SortBy(a, BySeq), pinned);
    FindStartIsMember(SortBy(b, BySeq), pinned);
  }

  /**
   No log can hijack a root. Whatever two logs carry, the forward walks from one pinned root follow
   one line of succession: the shorter is a prefix of the longer.
   */
  lemma NoLogHijacksARoot(pinned: Jwk, a: seq<RootEvent>, b: seq<RootEvent>)
    requires OneEventPerKey(a + b)
    ensures ForwardChain(pinned, a) <= ForwardChain(pinned, b) || ForwardChain(pinned, b) <= ForwardChain(pinned, a)
  {
    assert OneEventPerKeyAcross(a, b) by {
      forall e, f | e in a && f in b && SelfSigned(e) && SelfSigned(f) && e.rootKey.x == f.rootKey.x ensures e == f {
        assert e in a + b && f in a + b;
      }
    }
    StartIsUnique(pinned, a, b);
    var sa, sb := SortBy(a, BySeq), SortBy(b, BySeq);
    var s, t := FindStart(sa, pinned), FindStart(sb, pinned);
    if s.Some? && t.Some? {
      SortByMembers(a, BySeq);
      SortByMembers(b, BySeq);
      AboveMembers(sa, s.value.seqNo);
      AboveMembers(sb, s.value.seqNo);
      FollowersAgree(Above(sa, s.value.seqNo), Above(sb, s.value.seqNo), s.value);
    }
  }

  // ---------------------------------------------------------------- more log never means less walk

  lemma {:induction false} FollowersExtend(a: seq<RootEvent>, b: seq<RootEvent>, cur: RootEvent)
    requires Subsequence(a, b) && OneEventPerKey(b)
    ensures Followers(a, cur) <= Followers(b, cur)
    decreases |b|
  {
    if a != [] && b != [] {
      assert forall e :: e in b[1..] ==> e in b;
      if a[0] == b[0] && Subsequence(a[1..], b[1..]) {
        FollowersExtend(a[1..], b[1..], if Succeeds(cur, b[0]) then b[0] else cur);
      } else if Succeeds(cur, b[0]) {
        if Followers(a, cur) != [] {
          var i := FollowersSplit(a, cur);
          SubsequenceMembers(a, b, a[i]);
          assert a[i] == b[0];
          SubsequenceDrop(a, i + 1, b[1..]);
          FollowersExtend(a[i + 1..], b[1..], b[0]);
        }
      } else {
        FollowersExtend(a, b[1..], cur);
      }
    }
  }

  lemma {:induction false} AboveMonotone(a: seq<RootEvent>, b: seq<RootEvent>, n: int)
    requires Subsequence(a, b)
    ensures Subsequence(Above(a, n), Above(b, n))
    decreases |b|
  {
    if a != [] && b != [] {
      if a[0] == b[0] && Subsequence(a[1..], b[1..]) {
        AboveMonotone(a[1..], b[1..], n);
        if a[0].seqNo > n {
          assert Above(a, n)[1..] == Above(a[1..], n) && Above(b, n)[1..] == Above(b[1..], n);
        } else {
          assert Above(a, n) == Above(a[1..], n) && Above(b, n) == Above(b[1..], n);
        }
      } else {
        AboveMonotone(a, b[1..], n);
        if b[0].seqNo > n {
          assert Above(b, n)[1..] == Above(b[1..], n);
          SubsequenceWiden(Above(a, n), Above(b, n));
        } else {
          assert Above(b, n) == Above(b[1..], n);
        }
      }
    }
  }

  /** Adding events to a log, anywhere, never makes the walk end earlier (nor elsewhere). */
  lemma LargerLogWalksFurther(pinned: Jwk, small: seq<RootEvent>, large: seq<RootEvent>)
    requires Subsequence(small, large) && OneEventPerKey(large)
    ensures ForwardChain(pinned, small) <= ForwardChain(pinned, large)
  {
    var a, b := SortBy(small, BySeq), SortBy(large, BySeq);
    SortByMonotone(small, large, BySeq);
    SortByMembers(large, BySeq);
    FindStartIsMember(a, pinned);
    FindStartIsMember(b, pinned);
    var s := FindStart(a, pinned);
    if s.Some? {
      SubsequenceMembers(a, b, s.value);
      assert FindStart(b, pinned) == s;
      AboveMonotone(a, b, s.value.seqNo);
      AboveMembers(b, s.value.seqNo);
      FollowersExtend(Above(a, s.value.seqNo), Above(b, s.value.seqNo), s.value);
    }
  }

  // ---------------------------------------------------------------- exactly when the order of a log is irrelevant

  lemma {:induction false} FollowersAmong(es: seq<RootEvent>, cur: RootEvent)
    ensures Subsequence(Followers(es, cur), es)
  {
    if es != [] {
      if Succeeds(cur, es[0]) {
        FollowersAmong(es[1..], es[0]);
        assert Followers(es, cur)[1..] == Followers(es[1..], es[0]);
      } else {
        FollowersAmong(es[1..], cur);
        SubsequenceWiden(Followers(es, cur), es);
      }
    }
  }

  lemma {:induction false} AboveAmong(es: seq<RootEvent>, n: int)
    ensures Subsequence(Above(es, n), es)
  {
    if es != [] {
      AboveAmong(es[1..], n);
      if es[0].seqNo > n {
        assert Above(es, n)[1..] == Above(es[1..], n);
      } else {
        assert Above(es, n) == Above(es[1..], n);
        SubsequenceWiden(Above(es, n), es);
      }
    }
  }

  lemma {:induction false} AboveAscending(es: seq<RootEvent>, n: int)
    requires Ascending(es, BySeq)
    ensures Ascending(Above(es, n), BySeq)
  {
    if es != [] {
      AboveAscending(es[1..], n);
      AboveMembers(es[1..], n);
      var r := Above(es[1..], n);
      forall j | 0 <= j < |r| ensures es[0].seqNo <= r[j].seqNo {
        assert r[j] in r;
        var k :| 0 <= k < |es[1..]| && es[1..][k] == r[j];
        assert BySeq(es[0]) <= BySeq(es[k + 1]);
      }
    }
  }

  lemma TailStaysUnique(es: seq<RootEvent>)
    requires es != [] && OneEventPerKey(es)
    ensures OneEventPerKey(es[1..])
  {
    assert forall e :: e in es[1..] ==> e in es;
  }

  lemma LineInTail(es: seq<RootEvent>, line: seq<RootEvent>)
    requires es != [] && line != [] && Ascending(es, BySeq) && StrictlyAscending(line, BySeq)
    requires forall e :: e in line ==> e in es
    ensures forall e :: e in line[1..] ==> e in es[1..]
    ensures line[0] != es[0] ==> line[0] in es[1..]
  {
    assert line[0] in es;
    var k :| 0 <= k < |es| && es[k] == line[0];
    assert BySeq(es[0]) <= BySeq(es[k]);
    forall j | 0 < j < |line| ensures line[j] in es[1..] {
      assert BySeq(line[0]) < BySeq(line[j]);
      assert line[j] in es;
    }
  }

  lemma {:induction false} LineIsFollowed(es: seq<RootEvent>, cur: RootEvent, line: seq<RootEvent>)
    requires Ascending(es, BySeq) && OneEventPerKey(es)
    requires StrictlyAscending(line, BySeq)
    requires Linked(cur, line) && forall e :: e in line ==> e in es
    ensures line <= Followers(es, cur)
  {
    if line != [] {
      assert line[0] in es;
      LineInTail(es, line);
      TailStaysUnique(es);
      if Succeeds(cur, es[0]) {
        assert line[0] == es[0];
        LineIsFollowed(es[1..], es[0], line[1..]);
      } else {
        assert forall e :: e in line ==> e == line[0] || e in line[1..];
        LineIsFollowed(es[1..], cur, line);
      }
    }
  }

  ghost predicate Linked(cur: RootEvent, line: seq<RootEvent>)
    decreases |line|
  {
    line == [] || (Succeeds(cur, line[0]) && Linked(line[0], line[1..]))
  }

  lemma {:induction false} FollowersLinked(es: seq<RootEvent>, cur: RootEvent)
    ensures Linked(cur, Followers(es, cur))
    ensures forall e :: e in Followers(es, cur) ==> e in es
  {
    if es != [] {
      assert forall e :: e in es[1..] ==> e in es;
      if Succeeds(cur, es[0]) {
        FollowersLinked(es[1..], es[0]);
        assert Followers(es, cur)[1..] == Followers(es[1..], es[0]);
      } else {
        FollowersLinked(es[1..], cur);
      }
    }
  }

  lemma SameStart(pinned: Jwk, log: seq<RootEvent>, other: seq<RootEvent>)
    requires OneEventPerKey(other) && forall e :: e in log ==> e in other
    requires FindStart(SortBy(log, BySeq), pinned).Some?
    ensures FindStart(SortBy(other, BySeq), pinned) == FindStart(SortBy(log, BySeq), pinned)
  {
    SortByMembers(log, BySeq);
    SortByMembers(other, BySeq);
    FindStartIsMember(SortBy(log, BySeq), pinned);
    FindStartIsMember(SortBy(other, BySeq), pinned);
    assert FindStart(SortBy(log, BySeq), pinned).value in SortBy(other, BySeq);
  }

  lemma StrictChainIsFollowed(pinned: Jwk, log: seq<RootEvent>, other: seq<RootEvent>)
    requires StrictlyAscending(ForwardChain(pinned, log), BySeq)
    requires OneEventPerKey(other) && forall e :: e in log ==> e in other
    ensures ForwardChain(pinned, log) <= ForwardChain(pinned, other)
  {
    var a, b := SortBy(log, BySeq), SortBy(other, BySeq);
    if FindStart(a, pinned).Some? {
      SameStart(pinned, log, other);
      var start := FindStart(a, pinned).value;
      var n := start.seqNo;
      var line := Followers(Above(a, n), start);
      assert ForwardChain(pinned, log)[1..] == line;
      assert Ascending(Above(b, n), BySeq) by { SortByKeeps(other, BySeq); AboveAscending(b, n); }
      assert OneEventPerKey(Above(b, n)) && forall e :: e in line ==> e in Above(b, n) by {
        SortByMembers(log, BySeq);
        SortByMembers(other, BySeq);
        AboveMembers(a, n);
        AboveMembers(b, n);
        FollowersLinked(Above(a, n), start);
      }
      FollowersLinked(Above(a, n), start);
      LineIsFollowed(Above(b, n), start, line);
    }
  }

  function Without(es: seq<RootEvent>, x: RootEvent): (r: seq<RootEvent>)
    ensures forall e :: e in r <==> e in es && e != x
  {
    if es == [] then [] else (if es[0] == x then [] else [es[0]]) + Without(es[1..], x)
  }

  lemma {:induction false} BeforeInserted(u: RootEvent, x: RootEvent, t: seq<RootEvent>)
    requires x !in t && Subsequence([u, x], InsertBy(x, t, BySeq))
    ensures u.seqNo < x.seqNo
  {
    if t == [] || x.seqNo <= t[0].seqNo {
      assert InsertBy(x, t, BySeq)[1..] == t && [u, x][1..] == [x];
      if u == x && Subsequence([x], t) {
        SubsequenceMembers([x], t, x);
      } else {
        SubsequenceMembers([u, x], t, x);
      }
    } else if u != t[0] {
      assert InsertBy(x, t, BySeq)[1..] == InsertBy(x, t[1..], BySeq);
      BeforeInserted(u, x, t[1..]);
    }
  }

  lemma {:induction false} AdjacentPair(c: seq<RootEvent>, k: nat)
    requires k + 1 < |c|
    ensures Subsequence([c[k], c[k + 1]], c)
  {
    if k == 0 {
      assert Subsequence([c[1]], c[1..]) by { assert [c[1]][1..] == []; }
      assert [c[0], c[1]][1..] == [c[1]];
    } else {
      AdjacentPair(c[1..], k - 1);
      SubsequenceWiden([c[k], c[k + 1]], c);
    }
  }

  lemma ChainPairInOrder(pinned: Jwk, log: seq<RootEvent>, k: nat)
    requires 0 < k && k + 1 < |ForwardChain(pinned, log)|
    ensures var c := ForwardChain(pinned, log);
      Subsequence([c[k], c[k + 1]], SortBy(log, BySeq)) && c[k + 1] in log
  {
    var sorted := SortBy(log, BySeq);
    var start := FindStart(sorted, pinned).value;
    var later := Above(sorted, start.seqNo);
    var fs := Followers(later, start);
    var c := ForwardChain(pinned, log);
    assert c[k] == fs[k - 1] && c[k + 1] == fs[k];
    AdjacentPair(fs, k - 1);
    FollowersAmong(later, start);
    AboveAmong(sorted, start.seqNo);
    SubsequenceTrans([c[k], c[k + 1]], fs, later);
    SubsequenceTrans([c[k], c[k + 1]], later, sorted);
    SubsequenceMembers([c[k], c[k + 1]], sorted, c[k + 1]);
    SortByMembers(log, BySeq);
  }

  lemma SecondIsHigher(pinned: Jwk, log: seq<RootEvent>)
    requires |ForwardChain(pinned, log)| > 1
    ensures ForwardChain(pinned, log)[0].seqNo < ForwardChain(pinned, log)[1].seqNo
  {
    var sorted := SortBy(log, BySeq);
    var start := FindStart(sorted, pinned).value;
    FollowersLinked(Above(sorted, start.seqNo), start);
    AboveMembers(sorted, start.seqNo);
    assert ForwardChain(pinned, log)[1] == Followers(Above(sorted, start.seqNo), start)[0];
  }

  /** Moving a successor in front of a predecessor that shares its sequence number hides it from the walk. */
  lemma TiedSuccessorCanBeHidden(pinned: Jwk, log: seq<RootEvent>, k: nat) returns (other: seq<RootEvent>)
    requires OneEventPerKey(log)
    requires k + 1 < |ForwardChain(pinned, log)|
    requires ForwardChain(pinned, log)[k].seqNo >= ForwardChain(pinned, log)[k + 1].seqNo
    ensures OneEventPerKey(other) && forall e :: e in log <==> e in other
    ensures !(ForwardChain(pinned, log) <= ForwardChain(pinned, other))
  {
    var c := ForwardChain(pinned, log);
    if k == 0 { SecondIsHigher(pinned, log); }
    var u, x := c[k], c[k + 1];
    ChainPairInOrder(pinned, log, k);
    var rest := Without(log, x);
    other := [x] + rest;
    if c <= ForwardChain(pinned, other) {
      ChainPairInOrder(pinned, other, k);
      SortByMembers(rest, BySeq);
      assert other[1..] == rest;
      BeforeInserted(u, x, SortBy(rest, BySeq));
    }
  }

  /**
   Over logs that hold the same events in another arrangement (and perhaps more), the walk is sure
   to get at least as far exactly when sequence numbers strictly increase along it.
   */
  lemma ArrangementIrrelevantIffStrict(pinned: Jwk, log: seq<RootEvent>)
    requires OneEventPerKey(log)
    ensures StrictlyAscending(ForwardChain(pinned, log), BySeq)
      <==> forall other :: OneEventPerKey(other) && (forall e :: e in log ==> e in other)
                           ==> ForwardChain(pinned, log) <= ForwardChain(pinned, other)
  {
    var c := ForwardChain(pinned, log);
    if StrictlyAscending(c, BySeq) {
      forall other | OneEventPerKey(other) && (forall e :: e in log ==> e in other)
        ensures c <= ForwardChain(pinned, other)
      {
        StrictChainIsFollowed(pinned, log, other);
      }
    } else {
      if forall k :: 0 <= k < |c| - 1 ==> c[k].seqNo < c[k + 1].seqNo { StepwiseAscending(c); }
      var k: nat :| k < |c| - 1 && c[k].seqNo >= c[k + 1].seqNo;
      var other := TiedSuccessorCanBeHidden(pinned, log, k);
    }
  }

  lemma {:induction false} StepwiseAscending(c: seq<RootEvent>)
    requires forall k :: 0 <= k < |c| - 1 ==> c[k].seqNo < c[k + 1].seqNo
    ensures StrictlyAscending(c, BySeq)
  {
    if c != [] {
      StepwiseAscending(c[1..]);
      forall j | 0 < j < |c| ensures BySeq(c[0]) < BySeq(c[j]) {
        assert c[0].seqNo < c[1].seqNo;
        if j > 1 { assert BySeq(c[1..][0]) < BySeq(c[1..][j - 1]); }
      }
      forall i, j | 0 < i < j < |c| ensures BySeq(c[i]) < BySeq(c[j]) {
        assert BySeq(c[1..][i - 1]) < BySeq(c[1..][j - 1]);
      }
    }
  }
}
