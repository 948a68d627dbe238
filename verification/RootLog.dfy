/**
 Pre-rotated root keys: the log of root events and the walk over it from a pinned root
 (src/protocol/venue-keys.ts).

 Hashing is symbolic: `Sha(x)` is the digest of the public key `x`, so two keys share a digest only
 when they are the same key; `Text` is any other string somebody wrote where a digest belongs. The
 thumbprint that names a key and the commitment that announces it are the same digest. A signature
 is the key, if any, under which it verifies over the very event that carries it.
 */
module RootLog {
  import opened Wrappers
  import opened Sequences

  datatype Digest = Sha(x: string) | Text(s: string)

  datatype Jwk = Jwk(x: string, kid: Option<Digest>)

  datatype Reason = ESTABLISHMENT | ROTATION | COMPROMISE

  datatype RootEvent = RootEvent(
    seqNo: int,
    rootKid: Digest,
    rootKey: Jwk,
    previousRootKid: Option<Digest>,
    nextRootCommitment: Digest,
    reason: Reason,
    compromisedAt: Option<int>,
    signedBy: Option<string>)

  datatype RootInfo = RootInfo(key: Jwk, seqNo: int, untrustedFrom: Option<int>)

  datatype Current = Current(kid: Digest, key: Jwk, seqNo: int, nextRootCommitment: Digest)

  datatype Why = BROKEN_PREDECESSOR | NOT_LINKED | NOT_COMMITTED | NOT_SELF_SIGNED

  datatype Rejection = Rejection(seqNo: int, why: Why)

  datatype RootWalk = RootWalk(roots: map<Digest, RootInfo>, current: Current, rejected: seq<Rejection>)

  function Thumbprint(k: Jwk): Digest { Sha(k.x) }

  function Commitment(k: Jwk): Digest { Sha(k.x) }

  function KidOf(k: Jwk): Digest {
    if k.kid.Some? then k.kid.value else Thumbprint(k)
  }

  predicate SelfSigned(e: RootEvent) {
    e.rootKid == Thumbprint(e.rootKey) && e.signedBy == Some(e.rootKey.x)
  }

  function CurrentOf(e: RootEvent): Current {
    Current(e.rootKid, e.rootKey, e.seqNo, e.nextRootCommitment)
  }

  // ---------------------------------------------------------------- the walk as a function

  /** The predecessor an event names: an empty name is none. */
  function Predecessor(e: RootEvent): Option<Digest> {
    if e.previousRootKid == Some(Text("")) then None else e.previousRootKid
  }

  const BySeq: RootEvent -> int := (e: RootEvent) => e.seqNo

  predicate IsStart(e: RootEvent, pinned: Jwk) {
    e.rootKid == KidOf(pinned) && e.rootKey.x == pinned.x && SelfSigned(e)
  }

  function FindStart(es: seq<RootEvent>, pinned: Jwk): Option<RootEvent> {
    if es == [] then None else if IsStart(es[0], pinned) then Some(es[0]) else FindStart(es[1..], pinned)
  }

  function FindParent(es: seq<RootEvent>, kid: Digest, sq: int): Option<RootEvent> {
    if es == [] then None
    else if es[0].rootKid == kid && es[0].seqNo == sq then Some(es[0])
    else FindParent(es[1..], kid, sq)
  }

  function Above(es: seq<RootEvent>, sq: int): seq<RootEvent> {
    if es == [] then [] else (if es[0].seqNo > sq then [es[0]] else []) + Above(es[1..], sq)
  }

  /** What a declared compromise says about the predecessor. */
  function DeclaredBy(child: RootEvent): Option<int> {
    if child.reason == COMPROMISE then child.compromisedAt else None
  }

  predicate Vouches(parent: RootEvent, child: RootEvent) {
    SelfSigned(parent) && Commitment(child.rootKey) == parent.nextRootCommitment
  }

  predicate Succeeds(cur: RootEvent, e: RootEvent) {
    e.previousRootKid == Some(cur.rootKid) && Commitment(e.rootKey) == cur.nextRootCommitment && SelfSigned(e)
  }

  function WhyNot(cur: RootEvent, e: RootEvent): Why {
    if e.previousRootKid != Some(cur.rootKid) then NOT_LINKED
    else if Commitment(e.rootKey) != cur.nextRootCommitment then NOT_COMMITTED
    else NOT_SELF_SIGNED
  }

  /** No event of `es` has a sequence number below this. */
  function Floor(es: seq<RootEvent>): (m: int)
    ensures forall i :: 0 <= i < |es| ==> m <= es[i].seqNo
  {
    if es == [] then 0 else var r := Floor(es[1..]); if es[0].seqNo < r then es[0].seqNo else r
  }

  lemma FindParentIsMember(es: seq<RootEvent>, kid: Digest, sq: int)
    requires FindParent(es, kid, sq).Some?
    ensures var p := FindParent(es, kid, sq).value; p in es && p.rootKid == kid && p.seqNo == sq
  {
  }

  function Backward(es: seq<RootEvent>, child: RootEvent, roots: map<Digest, RootInfo>)
    : (r: (map<Digest, RootInfo>, seq<Rejection>))
    requires child in es
    decreases child.seqNo - Floor(es)
  {
    if Predecessor(child).None? then (roots, [])
    else
      var found := FindParent(es, Predecessor(child).value, child.seqNo - 1);
      if found.None? || !Vouches(found.value, child) then (roots, [Rejection(child.seqNo - 1, BROKEN_PREDECESSOR)])
      else
        FindParentIsMember(es, Predecessor(child).value, child.seqNo - 1);
        var parent := found.value;
        Backward(es, parent, roots[parent.rootKid := RootInfo(parent.rootKey, parent.seqNo, DeclaredBy(child))])
  }

  function Admit(roots: map<Digest, RootInfo>, cur: RootEvent, e: RootEvent): map<Digest, RootInfo> {
    var marked :=
      if DeclaredBy(e).Some? && cur.rootKid in roots
      then roots[cur.rootKid := roots[cur.rootKid].(untrustedFrom := DeclaredBy(e))]
      else roots;
    marked[e.rootKid := RootInfo(e.rootKey, e.seqNo, None)]
  }

  function Forward(es: seq<RootEvent>, cur: RootEvent, roots: map<Digest, RootInfo>, rejected: seq<Rejection>): RootWalk {
    if es == [] then RootWalk(roots, CurrentOf(cur), rejected)
    else if Succeeds(cur, es[0]) then Forward(es[1..], es[0], Admit(roots, cur, es[0]), rejected)
    else Forward(es[1..], cur, roots, rejected + [Rejection(es[0].seqNo, WhyNot(cur, es[0]))])
  }

  function Alone(pinned: Jwk): RootWalk {
    RootWalk(map[KidOf(pinned) := RootInfo(pinned, -1, None)], Current(KidOf(pinned), pinned, -1, Text("")), [])
  }

  lemma {:induction false} FindStartIsMember(es: seq<RootEvent>, pinned: Jwk)
    ensures FindStart(es, pinned).Some? ==> FindStart(es, pinned).value in es && IsStart(FindStart(es, pinned).value, pinned)
    ensures FindStart(es, pinned).None? ==> forall e :: e in es ==> !IsStart(e, pinned)
  {
    if es != [] && !IsStart(es[0], pinned) {
      FindStartIsMember(es[1..], pinned);
      assert forall e :: e in es ==> e == es[0] || e in es[1..];
    }
  }

  function WalkFrom(sorted: seq<RootEvent>, start: RootEvent): RootWalk
    requires start in sorted
  {
    var (roots, rejected) := Backward(sorted, start, map[start.rootKid := RootInfo(start.rootKey, start.seqNo, None)]);
    Forward(Above(sorted, start.seqNo), start, roots, rejected)
  }

  function Walk(pinned: Jwk, log: seq<RootEvent>): RootWalk {
    var sorted := SortBy(log, BySeq);
    var start := FindStart(sorted, pinned);
    if start.None? then Alone(pinned)
    else
      FindStartIsMember(sorted, pinned);
      WalkFrom(sorted, start.value)
  }

  // ---------------------------------------------------------------- the walk as it runs

  method FindStartEvent(es: seq<RootEvent>, pinned: Jwk) returns (found: Option<RootEvent>)
    ensures found == FindStart(es, pinned)
  {
    for i := 0 to |es|
      invariant FindStart(es, pinned) == FindStart(es[i..], pinned)
    {
      if IsStart(es[i], pinned) { return Some(es[i]); }
    }
    return None;
  }

  /** The backward loop stops on every log: each step finds an event one sequence number lower. */
  method WalkBackward(es: seq<RootEvent>, start: RootEvent)
    returns (roots: map<Digest, RootInfo>, rejected: seq<Rejection>)
    requires start in es
    ensures (roots, rejected) == Backward(es, start, map[start.rootKid := RootInfo(start.rootKey, start.seqNo, None)])
  {
    roots, rejected := map[start.rootKid := RootInfo(start.rootKey, start.seqNo, None)], [];
    ghost var whole := Backward(es, start, roots);
    var child := start;
    while Predecessor(child).Some?
      invariant child in es && rejected == []
      invariant Backward(es, child, roots) == whole
      decreases child.seqNo - Floor(es)
    {
      var parent := FindParent(es, Predecessor(child).value, child.seqNo - 1);
      if parent.None? || !Vouches(parent.value, child) {
        rejected := [Rejection(child.seqNo - 1, BROKEN_PREDECESSOR)];
        return;
      }
      FindParentIsMember(es, Predecessor(child).value, child.seqNo - 1);
      roots := roots[parent.value.rootKid := RootInfo(parent.value.rootKey, parent.value.seqNo, DeclaredBy(child))];
      child := parent.value;
    }
  }

  method WalkRootLog(pinned: Jwk, log: seq<RootEvent>) returns (w: RootWalk)
    ensures w == Walk(pinned, log)
  {
    var sorted := SortBy(log, BySeq);
    var found := FindStartEvent(sorted, pinned);
    if found.None? { return Alone(pinned); }
    FindStartIsMember(sorted, pinned);
    var start := found.value;
    var roots, rejected := WalkBackward(sorted, start);
    var later := Above(sorted, start.seqNo);
    var cur := start;
    for i := 0 to |later|
      invariant Forward(later[i..], cur, roots, rejected) == WalkFrom(sorted, start)
    {
      var e := later[i];
      assert later[i..][0] == e && later[i..][1..] == later[i + 1..];
      if Succeeds(cur, e) {
        roots := Admit(roots, cur, e);
        cur := e;
      } else {
        rejected := rejected + [Rejection(e.seqNo, WhyNot(cur, e))];
      }
    }
    return RootWalk(roots, CurrentOf(cur), rejected);
  }
}
