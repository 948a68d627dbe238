/**
 The backward half of the walk: the roots before the pinned one, what a hostile log can and cannot do to them, and
 exactly which roots a walk trusts.
 */
module RootLogAncestors {
  import opened Wrappers
  import opened Sequences
  import opened RootLog
  import opened RootLogTheorems

  /** The events a backward walk from `child` accepts, nearest first. */
  function Ancestors(es: seq<RootEvent>, child: RootEvent): seq<RootEvent>
    requires child in es
    decreases child.seqNo - Floor(es)
  {
    if Predecessor(child).None? then []
    else
      var found := FindParent(es, Predecessor(child).value, child.seqNo - 1);
      if found.None? || !Vouches(found.value, child) then []
      else
        FindParentIsMember(es, Predecessor(child).value, child.seqNo - 1);
        [found.value] + Ancestors(es, found.value)
  }

  /** The predecessors of the pinned root the walk reaches. */
  function BackwardChain(pinned: Jwk, log: seq<RootEvent>): seq<RootEvent> {
    var sorted := SortBy(log, BySeq);
    var start := FindStart(sorted, pinned);
    if start.None? then []
    else
      FindStartIsMember(sorted, pinned);
      Ancestors(sorted, start.value)
  }

  // ---------------------------------------------------------------- the roots a walk trusts

  predicate Kid(es: seq<RootEvent>, k: Digest) { exists i :: 0 <= i < |es| && es[i].rootKid == k }

  lemma KidTogether(a: seq<RootEvent>, b: seq<RootEvent>, k: Digest)
    ensures Kid(a + b, k) <==> Kid(a, k) || Kid(b, k)
  {
    if i :| 0 <= i < |a| && a[i].rootKid == k { assert (a + b)[i] == a[i]; }
    if i :| 0 <= i < |b| && b[i].rootKid == k { assert (a + b)[|a| + i] == b[i]; }
  }

  lemma {:induction false} BackwardTrustsExactly(es: seq<RootEvent>, child: RootEvent, roots: map<Digest, RootInfo>)
    requires child in es
    ensures forall k :: k in Backward(es, child, roots).0 <==> k in roots || Kid(Ancestors(es, child), k)
    decreases child.seqNo - Floor(es)
  {
    if Predecessor(child).Some? {
      var found := FindParent(es, Predecessor(child).value, child.seqNo - 1);
      if found.Some? && Vouches(found.value, child) {
        FindParentIsMember(es, Predecessor(child).value, child.seqNo - 1);
        var p := found.value;
        var more := roots[p.rootKid := RootInfo(p.rootKey, p.seqNo, DeclaredBy(child))];
        BackwardTrustsExactly(es, p, more);
        forall k ensures k in Backward(es, child, roots).0 <==> k in roots || Kid(Ancestors(es, child), k) {
          KidTogether([p], Ancestors(es, p), k);
          assert Kid([p], k) <==> [p][0].rootKid == k;
        }
      }
    }
  }

  lemma {:induction false} ForwardTrustsExactly(es: seq<RootEvent>, cur: RootEvent, roots: map<Digest, RootInfo>, rejected: seq<Rejection>)
    ensures forall k :: k in Forward(es, cur, roots, rejected).roots <==> k in roots || Kid(Followers(es, cur), k)
  {
    if es != [] {
      if Succeeds(cur, es[0]) {
        ForwardTrustsExactly(es[1..], es[0], Admit(roots, cur, es[0]), rejected);
        forall k ensures k in Forward(es, cur, roots, rejected).roots <==> k in roots || Kid(Followers(es, cur), k) {
          KidTogether([es[0]], Followers(es[1..], es[0]), k);
          assert Kid([es[0]], k) <==> [es[0]][0].rootKid == k;
        }
      } else {
        ForwardTrustsExactly(es[1..], cur, roots, rejected + [Rejection(es[0].seqNo, WhyNot(cur, es[0]))]);
      }
    }
  }

  /** A walk that finds its start trusts exactly the roots of its forward and its backward chain; one that does not, the pin alone. */
  lemma WalkTrustsExactly(pinned: Jwk, log: seq<RootEvent>)
    ensures ForwardChain(pinned, log) == [] ==> Walk(pinned, log) == Alone(pinned) && BackwardChain(pinned, log) == []
    ensures ForwardChain(pinned, log) != [] ==>
      forall k :: k in Walk(pinned, log).roots <==> Kid(ForwardChain(pinned, log), k) || Kid(BackwardChain(pinned, log), k)
  {
    var sorted := SortBy(log, BySeq);
    FindStartIsMember(sorted, pinned);
    var start := FindStart(sorted, pinned);
    if start.Some? {
      var s := start.value;
      var seed := map[s.rootKid := RootInfo(s.rootKey, s.seqNo, None)];
      var (roots, rejected) := Backward(sorted, s, seed);
      BackwardTrustsExactly(sorted, s, seed);
      ForwardTrustsExactly(Above(sorted, s.seqNo), s, roots, rejected);
      forall k ensures Kid(ForwardChain(pinned, log), k) <==> k == s.rootKid || Kid(Followers(Above(sorted, s.seqNo), s), k) {
        KidTogether([s], Followers(Above(sorted, s.seqNo), s), k);
        assert Kid([s], k) <==> [s][0].rootKid == k;
      }
    }
  }

  // ---------------------------------------------------------------- nobody can invent an ancestor

  lemma {:induction false} AncestorsAre(es: seq<RootEvent>, child: RootEvent)
    requires child in es
    ensures forall i :: 0 <= i < |Ancestors(es, child)| ==> var a := Ancestors(es, child)[i];
      a in es && SelfSigned(a) && a.seqNo == child.seqNo - 1 - i && FindParent(es, a.rootKid, a.seqNo) == Some(a)
    decreases child.seqNo - Floor(es)
  {
    if Ancestors(es, child) != [] {
      FindParentIsMember(es, Predecessor(child).value, child.seqNo - 1);
      AncestorsAre(es, Ancestors(es, child)[0]);
    }
  }

  lemma {:induction false} AncestorsAgree(a: seq<RootEvent>, b: seq<RootEvent>, child: RootEvent)
    requires child in a && child in b && OneEventPerKeyAcross(a, b)
    ensures Ancestors(a, child) <= Ancestors(b, child) || Ancestors(b, child) <= Ancestors(a, child)
    decreases child.seqNo - Floor(a)
  {
    if Ancestors(a, child) != [] && Ancestors(b, child) != [] {
      FindParentIsMember(a, Predecessor(child).value, child.seqNo - 1);
      FindParentIsMember(b, Predecessor(child).value, child.seqNo - 1);
      var p, q := Ancestors(a, child)[0], Ancestors(b, child)[0];
      assert p.rootKey.x == q.rootKey.x;
      AncestorsAgree(a, b, p);
    }
  }

  /** Whatever two logs carry, the backward walks from one pinned root follow one line: the shorter is a prefix of the longer. */
  lemma NoLogInventsAnAncestor(pinned: Jwk, a: seq<RootEvent>, b: seq<RootEvent>)
    requires OneEventPerKey(a + b)
    ensures BackwardChain(pinned, a) <= BackwardChain(pinned, b) || BackwardChain(pinned, b) <= BackwardChain(pinned, a)
  {
    AcrossBoth(a, b);
    StartIsUnique(pinned, a, b);
    var sa, sb := SortBy(a, BySeq), SortBy(b, BySeq);
    FindStartIsMember(sa, pinned);
    FindStartIsMember(sb, pinned);
    if FindStart(sa, pinned).Some? && FindStart(sb, pinned).Some? {
      SortByMembers(a, BySeq);
      SortByMembers(b, BySeq);
      AncestorsAgree(sa, sb, FindStart(sa, pinned).value);
    }
  }

  lemma AcrossBoth(a: seq<RootEvent>, b: seq<RootEvent>)
    requires OneEventPerKey(a + b)
    ensures OneEventPerKeyAcross(a, b)
  {
    forall e, f | e in a && f in b && SelfSigned(e) && SelfSigned(f) && e.rootKey.x == f.rootKey.x ensures e == f {
      assert e in a + b && f in a + b;
    }
  }

  // ---------------------------------------------------------------- exactly when a larger log keeps every ancestor

  lemma {:induction false} InsertKeepsParent(x: RootEvent, s: seq<RootEvent>, kid: Digest, sq: int)
    ensures FindParent(InsertBy(x, s, BySeq), kid, sq) == FindParent([x] + s, kid, sq)
  {
    assert ([x] + s)[1..] == s;
    var out := InsertBy(x, s, BySeq);
    if s == [] || BySeq(x) <= BySeq(s[0]) {
      assert out == [x] + s;
    } else {
      InsertKeepsParent(x, s[1..], kid, sq);
      assert ([x] + s[1..])[1..] == s[1..];
      assert out[1..] == InsertBy(x, s[1..], BySeq);
    }
  }

  /** Sorting is stable: the first of a name and number is the first as the log came. */
  lemma {:induction false} SortKeepsParent(log: seq<RootEvent>, kid: Digest, sq: int)
    ensures FindParent(SortBy(log, BySeq), kid, sq) == FindParent(log, kid, sq)
  {
    if log != [] {
      SortKeepsParent(log[1..], kid, sq);
      InsertKeepsParent(log[0], SortBy(log[1..], BySeq), kid, sq);
      assert ([log[0]] + SortBy(log[1..], BySeq))[1..] == SortBy(log[1..], BySeq);
    }
  }

  /** Of the events of its name and number, the first in the log is this one. */
  predicate ComesFirst(log: seq<RootEvent>, e: RootEvent) { FindParent(log, e.rootKid, e.seqNo) == Some(e) }

  predicate AllComeFirst(log: seq<RootEvent>, es: seq<RootEvent>) { forall i :: 0 <= i < |es| ==> ComesFirst(log, es[i]) }

  lemma {:induction false} AncestorsKept(a: seq<RootEvent>, b: seq<RootEvent>, child: RootEvent)
    requires child in a && child in b && AllComeFirst(b, Ancestors(a, child))
    ensures Ancestors(a, child) <= Ancestors(b, child)
    decreases child.seqNo - Floor(a)
  {
    if Ancestors(a, child) != [] {
      FindParentIsMember(a, Predecessor(child).value, child.seqNo - 1);
      var p := Ancestors(a, child)[0];
      assert ComesFirst(b, Ancestors(a, child)[0]);
      FindParentIsMember(b, Predecessor(child).value, child.seqNo - 1);
      assert forall i :: 0 <= i < |Ancestors(a, p)| ==> Ancestors(a, p)[i] == Ancestors(a, child)[i + 1];
      AncestorsKept(a, b, p);
    }
  }

  /**
   A larger log keeps every ancestor exactly when, of the events with each ancestor's name and number, the ancestor
   comes first in it. Nothing about the others, a signature least of all, is looked at before that choice.
   */
  lemma AncestorsKeptExactlyWhenFirst(pinned: Jwk, small: seq<RootEvent>, large: seq<RootEvent>)
    requires OneEventPerKey(large) && forall e :: e in small ==> e in large
    ensures BackwardChain(pinned, small) <= BackwardChain(pinned, large) <==> AllComeFirst(large, BackwardChain(pinned, small))
  {
    var a, b := SortBy(small, BySeq), SortBy(large, BySeq);
    FindStartIsMember(a, pinned);
    FindStartIsMember(b, pinned);
    var chain := BackwardChain(pinned, small);
    forall i | 0 <= i < |chain| ensures ComesFirst(b, chain[i]) <==> ComesFirst(large, chain[i]) {
      SortKeepsParent(large, chain[i].rootKid, chain[i].seqNo);
    }
    if FindStart(a, pinned).Some? {
      SameStart(pinned, small, large);
      var s := FindStart(a, pinned).value;
      AncestorsAre(b, s);
      if AllComeFirst(large, chain) { AncestorsKept(a, b, s); }
      if chain <= BackwardChain(pinned, large) {
        assert forall i :: 0 <= i < |chain| ==> chain[i] == BackwardChain(pinned, large)[i];
      }
    }
  }

  // ---------------------------------------------------------------- exactly when a larger log keeps every root

  lemma OneKidOneEvent(log: seq<RootEvent>, e: RootEvent, f: RootEvent)
    requires OneEventPerKey(log) && e in log && f in log && SelfSigned(e) && SelfSigned(f) && e.rootKid == f.rootKid
    ensures e == f
  {
  }

  lemma {:induction false} LinkedAreSigned(cur: RootEvent, line: seq<RootEvent>)
    requires Linked(cur, line)
    ensures forall i :: 0 <= i < |line| ==> SelfSigned(line[i])
    decreases |line|
  {
    if line != [] {
      LinkedAreSigned(line[0], line[1..]);
      assert forall i :: 0 < i < |line| ==> line[i] == line[1..][i - 1];
    }
  }

  /** What a forward chain holds: signed events of the log, none before its first. */
  lemma ForwardChainIs(pinned: Jwk, log: seq<RootEvent>)
    ensures var c := ForwardChain(pinned, log);
      forall i :: 0 <= i < |c| ==> c[i] in log && SelfSigned(c[i]) && c[i].seqNo >= c[0].seqNo
    ensures ForwardChain(pinned, log) != [] ==> ForwardChain(pinned, log)[0].rootKid == KidOf(pinned)
  {
    var sorted := SortBy(log, BySeq);
    FindStartIsMember(sorted, pinned);
    SortByMembers(log, BySeq);
    if FindStart(sorted, pinned).Some? {
      var s := FindStart(sorted, pinned).value;
      var later := Above(sorted, s.seqNo);
      AboveMembers(sorted, s.seqNo);
      FollowersLinked(later, s);
      LinkedAreSigned(s, Followers(later, s));
      var c, fs := ForwardChain(pinned, log), Followers(later, s);
      forall i | 0 <= i < |c| ensures c[i] in log && SelfSigned(c[i]) && c[i].seqNo >= c[0].seqNo {
        if i > 0 { assert c[i] == fs[i - 1] && fs[i - 1] in fs; }
      }
    }
  }

  /** What a backward chain holds: signed events of the log, each first of its name and number, one below the other. */
  lemma BackwardChainIs(pinned: Jwk, log: seq<RootEvent>)
    ensures var c := BackwardChain(pinned, log);
      forall i :: 0 <= i < |c| ==> c[i] in log && SelfSigned(c[i]) && ComesFirst(log, c[i]) && c[i].seqNo == ForwardChain(pinned, log)[0].seqNo - 1 - i
    ensures BackwardChain(pinned, log) != [] ==> ForwardChain(pinned, log) != []
  {
    var sorted := SortBy(log, BySeq);
    FindStartIsMember(sorted, pinned);
    SortByMembers(log, BySeq);
    if FindStart(sorted, pinned).Some? {
      AncestorsAre(sorted, FindStart(sorted, pinned).value);
      var c := BackwardChain(pinned, log);
      forall i | 0 <= i < |c| ensures ComesFirst(log, c[i]) { SortKeepsParent(log, c[i].rootKid, c[i].seqNo); }
    }
  }

  lemma SameFirst(pinned: Jwk, small: seq<RootEvent>, large: seq<RootEvent>)
    requires OneEventPerKey(large) && (forall e :: e in small ==> e in large) && ForwardChain(pinned, small) != []
    ensures ForwardChain(pinned, large) != [] && ForwardChain(pinned, large)[0] == ForwardChain(pinned, small)[0]
  {
    SameStart(pinned, small, large);
  }

  /** An ancestor in a smaller log is trusted by a walk over a larger one only if it comes first there. */
  lemma TrustedAncestorComesFirst(pinned: Jwk, small: seq<RootEvent>, large: seq<RootEvent>, i: nat)
    requires OneEventPerKey(large) && (forall e :: e in small ==> e in large) && i < |BackwardChain(pinned, small)|
    requires BackwardChain(pinned, small)[i].rootKid in Walk(pinned, large).roots
    ensures ComesFirst(large, BackwardChain(pinned, small)[i])
  {
    var a := BackwardChain(pinned, small)[i];
    BackwardChainIs(pinned, small);
    BackwardChainIs(pinned, large);
    ForwardChainIs(pinned, large);
    SameFirst(pinned, small, large);
    WalkTrustsExactly(pinned, large);
    var forward, backward := ForwardChain(pinned, large), BackwardChain(pinned, large);
    forall j | 0 <= j < |forward| ensures forward[j].rootKid != a.rootKid {
      if forward[j].rootKid == a.rootKid { OneKidOneEvent(large, forward[j], a); }
    }
    var j :| 0 <= j < |backward| && backward[j].rootKid == a.rootKid;
    OneKidOneEvent(large, backward[j], a);
  }

  lemma KidOfPrefix(a: seq<RootEvent>, b: seq<RootEvent>, k: Digest)
    requires a <= b && Kid(a, k)
    ensures Kid(b, k)
  {
    var i :| 0 <= i < |a| && a[i].rootKid == k;
    assert b[i] == a[i];
  }

  lemma RootsKeptIfFirst(pinned: Jwk, small: seq<RootEvent>, large: seq<RootEvent>, k: Digest)
    requires Subsequence(small, large) && OneEventPerKey(large) && (forall e :: e in small ==> e in large)
    requires AllComeFirst(large, BackwardChain(pinned, small)) && k in Walk(pinned, small).roots
    ensures k in Walk(pinned, large).roots
  {
    WalkTrustsExactly(pinned, small);
    WalkTrustsExactly(pinned, large);
    if ForwardChain(pinned, small) == [] {
      ForwardChainIs(pinned, large);
    } else {
      SameFirst(pinned, small, large);
      LargerLogWalksFurther(pinned, small, large);
      AncestorsKeptExactlyWhenFirst(pinned, small, large);
      if Kid(ForwardChain(pinned, small), k) {
        KidOfPrefix(ForwardChain(pinned, small), ForwardChain(pinned, large), k);
      } else {
        KidOfPrefix(BackwardChain(pinned, small), BackwardChain(pinned, large), k);
      }
    }
  }

  /** A log with more events, in any places, leaves every trusted root trusted exactly when each ancestor comes first in it. */
  lemma RootsKeptExactlyWhenFirst(pinned: Jwk, small: seq<RootEvent>, large: seq<RootEvent>)
    requires Subsequence(small, large) && OneEventPerKey(large)
    ensures Walk(pinned, small).roots.Keys <= Walk(pinned, large).roots.Keys <==> AllComeFirst(large, BackwardChain(pinned, small))
  {
    forall e | e in small ensures e in large { SubsequenceMembers(small, large, e); }
    var chain := BackwardChain(pinned, small);
    if AllComeFirst(large, chain) {
      forall k | k in Walk(pinned, small).roots ensures k in Walk(pinned, large).roots { RootsKeptIfFirst(pinned, small, large, k); }
    }
    if Walk(pinned, small).roots.Keys <= Walk(pinned, large).roots.Keys {
      forall i: nat | i < |chain| ensures ComesFirst(large, chain[i]) {
        AncestorIsTrusted(pinned, small, i);
        TrustedAncestorComesFirst(pinned, small, large, i);
      }
    }
  }

  lemma AncestorIsTrusted(pinned: Jwk, log: seq<RootEvent>, i: nat)
    requires i < |BackwardChain(pinned, log)|
    ensures BackwardChain(pinned, log)[i].rootKid in Walk(pinned, log).roots
  {
    BackwardChainIs(pinned, log);
    WalkTrustsExactly(pinned, log);
    assert Kid(BackwardChain(pinned, log), BackwardChain(pinned, log)[i].rootKid);
  }

  /** Any ancestor can be hidden: put an unsigned event of its name and number in front, and its root is trusted no more. */
  lemma UnsignedEventHidesAnAncestor(pinned: Jwk, log: seq<RootEvent>, i: nat) returns (junk: RootEvent)
    requires OneEventPerKey(log) && i < |BackwardChain(pinned, log)|
    ensures junk.signedBy.None? && Subsequence(log, [junk] + log) && OneEventPerKey([junk] + log)
    ensures BackwardChain(pinned, log)[i].rootKid in Walk(pinned, log).roots
    ensures BackwardChain(pinned, log)[i].rootKid !in Walk(pinned, [junk] + log).roots
  {
    var a := BackwardChain(pinned, log)[i];
    junk := a.(signedBy := None);
    var large := [junk] + log;
    BackwardChainIs(pinned, log);
    AncestorIsTrusted(pinned, log, i);
    assert large[1..] == log;
    SubsequenceReflexive(log);
    SubsequenceWiden(log, large);
    assert OneEventPerKey(large) by { assert forall e :: e in large && SelfSigned(e) ==> e in log; }
    assert !ComesFirst(large, a) by { assert FindParent(large, a.rootKid, a.seqNo) == Some(junk); }
    if a.rootKid in Walk(pinned, large).roots { TrustedAncestorComesFirst(pinned, log, large, i); }
  }
}
