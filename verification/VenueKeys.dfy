/**
 Operational keys: certificates and revocations signed by root keys, and the resolver that decides
 which of them count (src/protocol/venue-keys.ts).
 */
module VenueKeys {
  import opened Wrappers
  import opened RootLog

  datatype Cert = Cert(kid: Digest, key: Jwk, validFrom: int, issuedAt: int, issuedBy: Digest, signedBy: Option<string>)

  datatype Revocation = Revocation(kid: Digest, at: int, compromisedAt: Option<int>, issuedBy: Digest, signedBy: Option<string>)

  type Roots = map<Digest, RootInfo>

  predicate VerifyCert(c: Cert, root: Jwk) {
    c.issuedBy == KidOf(root) && c.kid == Thumbprint(c.key) && c.signedBy == Some(root.x)
  }

  predicate VerifyRevocation(r: Revocation, root: Jwk) {
    r.issuedBy == KidOf(root) && r.signedBy == Some(root.x)
  }

  /** Was the root that signed at `at` still trusted then? */
  predicate RootTrustedAt(info: RootInfo, at: int) {
    info.untrustedFrom.None? || at < info.untrustedFrom.value
  }

  predicate CertTrusted(roots: Roots, c: Cert) {
    c.issuedBy in roots && RootTrustedAt(roots[c.issuedBy], c.issuedAt)
  }

  predicate CertSigned(roots: Roots, c: Cert) {
    c.issuedBy in roots && VerifyCert(c, roots[c.issuedBy].key)
  }

  predicate RevocationCounts(roots: Roots, r: Revocation) {
    r.issuedBy in roots && VerifyRevocation(r, roots[r.issuedBy].key) && RootTrustedAt(roots[r.issuedBy], r.at)
  }

  /** The first certificate of the list that a still-trusted root vouches for. */
  function FirstTrusted(roots: Roots, cs: seq<Cert>): Option<Cert> {
    if cs == [] then None else if CertTrusted(roots, cs[0]) then Some(cs[0]) else FirstTrusted(roots, cs[1..])
  }

  lemma {:induction false} FirstTrustedFinds(roots: Roots, cs: seq<Cert>)
    ensures FirstTrusted(roots, cs).Some? ==> FirstTrusted(roots, cs).value in cs && CertTrusted(roots, FirstTrusted(roots, cs).value)
    ensures FirstTrusted(roots, cs).None? ==> forall c :: c in cs ==> !CertTrusted(roots, c)
  {
    if cs != [] && !CertTrusted(roots, cs[0]) {
      FirstTrustedFinds(roots, cs[1..]);
      assert forall c :: c in cs <==> c == cs[0] || c in cs[1..];
    }
  }

  /** A key may be relied on for a signature made at `at`. */
  predicate TrustedAt(roots: Roots, cs: seq<Cert>, rev: Option<Revocation>, at: int) {
    && (exists i :: 0 <= i < |cs| && CertTrusted(roots, cs[i]) && at >= cs[i].validFrom)
    && !(rev.Some? && rev.value.compromisedAt.Some? && at >= rev.value.compromisedAt.value)
  }

  /** A log is extended by the events whose (sequence number, key) it does not hold yet. */
  predicate Knows(log: seq<RootEvent>, e: RootEvent) {
    exists i :: 0 <= i < |log| && log[i].seqNo == e.seqNo && log[i].rootKid == e.rootKid
  }

  function Merge(seen: seq<RootEvent>, log: seq<RootEvent>): seq<RootEvent> {
    if log == [] then seen
    else
      var m := Merge(seen, log[..|log| - 1]);
      if Knows(m, log[|log| - 1]) then m else m + [log[|log| - 1]]
  }

  function Named(root: Jwk): Jwk { Jwk(root.x, Some(KidOf(root))) }

  /** The revocation that remains in force per key after a list of them is presented: the last that counts. */
  function RevokeAll(roots: Roots, revs: map<Digest, Revocation>, rs: seq<Revocation>): map<Digest, Revocation> {
    if rs == [] then revs
    else
      var m := RevokeAll(roots, revs, rs[..|rs| - 1]);
      var r := rs[|rs| - 1];
      if RevocationCounts(roots, r) then m[r.kid := r] else m
  }

  function Filed(certs: map<Digest, seq<Cert>>, kid: Digest): seq<Cert> { if kid in certs then certs[kid] else [] }

  /** The table of certificates after a list of them is presented: those a walked root signed, each once. */
  function AddAll(roots: Roots, certs: map<Digest, seq<Cert>>, cs: seq<Cert>): map<Digest, seq<Cert>> {
    if cs == [] then certs
    else
      var m := AddAll(roots, certs, cs[..|cs| - 1]);
      var c := cs[|cs| - 1];
      if !CertSigned(roots, c) then m else m[c.kid := if c in Filed(m, c.kid) then Filed(m, c.kid) else Filed(m, c.kid) + [c]]
  }

  /** Of a list presented to an empty table, exactly the properly signed are held, under the key they certify. */
  lemma {:induction false} AddAllHolds(roots: Roots, cs: seq<Cert>, kid: Digest, c: Cert)
    ensures c in Filed(AddAll(roots, map[], cs), kid) <==> c in cs && CertSigned(roots, c) && c.kid == kid
  {
    if cs != [] {
      AddAllHolds(roots, cs[..|cs| - 1], kid, c);
      assert cs == cs[..|cs| - 1] + [cs[|cs| - 1]];
    }
  }

  datatype History = History(rootLog: seq<RootEvent>, certs: seq<Cert>, revocations: seq<Revocation>)

  class Resolver {
    const pinned: Jwk
    var walk: RootWalk
    var seenLog: seq<RootEvent>
    var certs: map<Digest, seq<Cert>>
    var revs: map<Digest, Revocation>

    /** A pinned root and whatever history is known of it: its log is walked, then certificates and revocations are taken as far as the walk bears them out. */
    constructor (root: Jwk, known: History)
      ensures pinned == Named(root) && seenLog == known.rootLog
      ensures walk == Walk(pinned, known.rootLog)
      ensures certs == AddAll(walk.roots, map[], known.certs)
      ensures revs == RevokeAll(walk.roots, map[], known.revocations)
    {
      pinned := Named(root);
      seenLog, certs, revs := known.rootLog, map[], map[];
      new;
      walk := WalkRootLog(pinned, known.rootLog);
      AddKnown(known.certs);
      RevokeKnown(known.revocations);
    }

    method AddKnown(cs: seq<Cert>)
      modifies this`certs
      ensures certs == AddAll(walk.roots, old(certs), cs)
    {
      for i := 0 to |cs|
        invariant certs == AddAll(walk.roots, old(certs), cs[..i])
      {
        assert cs[..i + 1][..i] == cs[..i];
        var _ := Add(cs[i]);
      }
      assert cs[..|cs|] == cs;
    }

    method RevokeKnown(rs: seq<Revocation>)
      modifies this`revs
      ensures revs == RevokeAll(walk.roots, old(revs), rs)
    {
      for i := 0 to |rs|
        invariant revs == RevokeAll(walk.roots, old(revs), rs[..i])
      {
        assert rs[..i + 1][..i] == rs[..i];
        var _ := Revoke(rs[i]);
      }
      assert rs[..|rs|] == rs;
    }

    function CertsOf(kid: Digest): seq<Cert>
      reads this
    {
      if kid in certs then certs[kid] else []
    }

    function RevocationOf(kid: Digest): Option<Revocation>
      reads this
    {
      if kid in revs then Some(revs[kid]) else None
    }

    method Add(c: Cert) returns (ok: bool)
      modifies this`certs
      ensures ok <==> CertSigned(walk.roots, c)
      ensures ok ==> certs == old(certs)[c.kid := if c in old(CertsOf(c.kid)) then old(CertsOf(c.kid)) else old(CertsOf(c.kid)) + [c]]
      ensures !ok ==> certs == old(certs)
    {
      if c.issuedBy !in walk.roots || !VerifyCert(c, walk.roots[c.issuedBy].key) { return false; }
      var list := if c.kid in certs then certs[c.kid] else [];
      if c !in list { list := list + [c]; }
      certs := certs[c.kid := list];
      return true;
    }

    method Revoke(r: Revocation) returns (ok: bool)
      modifies this`revs
      ensures ok <==> RevocationCounts(walk.roots, r)
      ensures revs == if ok then old(revs)[r.kid := r] else old(revs)
    {
      if r.issuedBy !in walk.roots { return false; }
      var issuer := walk.roots[r.issuedBy];
      if !VerifyRevocation(r, issuer.key) { return false; }
      if issuer.untrustedFrom.Some? && r.at >= issuer.untrustedFrom.value { return false; }
      revs := revs[r.kid := r];
      return true;
    }

    method ExtendRoots(log: seq<RootEvent>) returns (changed: bool)
      modifies this`walk, this`seenLog
      ensures seenLog == Merge(old(seenLog), log) && walk == Walk(pinned, seenLog)
      ensures changed <==> walk.current.kid != old(walk).current.kid
    {
      for i := 0 to |log|
        invariant seenLog == Merge(old(seenLog), log[..i]) && walk == old(walk)
      {
        assert log[..i + 1][..i] == log[..i];
        if !Knows(seenLog, log[i]) { seenLog := seenLog + [log[i]]; }
      }
      assert log[..|log|] == log;
      var before := walk.current.kid;
      walk := WalkRootLog(pinned, seenLog);
      return walk.current.kid != before;
    }

    function Key(kid: Digest): Option<Jwk>
      reads this
    {
      var c := FirstTrusted(walk.roots, CertsOf(kid));
      if c.Some? then Some(c.value.key) else None
    }

    predicate Trusted(kid: Digest, at: int)
      reads this
    {
      TrustedAt(walk.roots, CertsOf(kid), RevocationOf(kid), at)
    }
  }
}
