/**
 Verifying a chain from a pinned root (src/ledger/chain.ts, the root-trust mode of `verifyChain`),
 and what its verdict means.
 */
module RootTrust {
  import opened Wrappers
  import opened RootLog
  import opened VenueKeys
  import opened Chain

  datatype Trust = Trust(root: Jwk, revocations: seq<Revocation>)

  predicate CarriesRoot(e: Entry) { (e.typ == GENESIS || e.typ == ROOT_ROTATION) && e.payload.rootEvent.Some? }

  predicate CarriesCert(e: Entry) { (e.typ == GENESIS || e.typ == KEY_ROTATION) && e.payload.cert.Some? }

  predicate CarriesRevocation(e: Entry) { e.typ == KEY_ROTATION && e.payload.revocation.Some? }

  function RootEvents(es: seq<Entry>): seq<RootEvent> {
    if es == [] then []
    else
      var e := es[|es| - 1];
      RootEvents(es[..|es| - 1]) + if CarriesRoot(e) then [e.payload.rootEvent.value] else []
  }

  function Revocations(es: seq<Entry>): seq<Revocation> {
    if es == [] then []
    else
      var e := es[|es| - 1];
      Revocations(es[..|es| - 1]) + if CarriesRevocation(e) then [e.payload.revocation.value] else []
  }

  /** The roots the chain itself proves, starting from the pin. */
  function RootsOf(trust: Trust, es: seq<Entry>): Roots {
    Walk(Named(trust.root), Merge([], RootEvents(es))).roots
  }

  /** Revocations known beforehand count only if the pinned root signed them. */
  function KnownBefore(trust: Trust): map<Digest, Revocation> {
    RevokeAll(Walk(Named(trust.root), []).roots, map[], trust.revocations)
  }

  function InForce(trust: Trust, es: seq<Entry>): map<Digest, Revocation> {
    RevokeAll(RootsOf(trust, es), KnownBefore(trust), Revocations(es))
  }

  // ---------------------------------------------------------------- what "verifies" means

  /** The chain carries this certificate for the key, and a root still trusted when it was issued signed it. */
  ghost predicate Certifies(roots: Roots, es: seq<Entry>, kid: Digest, c: Cert) {
    && (exists i :: 0 <= i < |es| && CarriesCert(es[i]) && es[i].payload.cert.value == c)
    && c.kid == kid && CertTrusted(roots, c)
  }

  ghost predicate SignedByCertifiedKey(roots: Roots, es: seq<Entry>, e: Entry) {
    exists c :: Certifies(roots, es, e.venueSig.kid, c) && SignedBy(e, c.key.x)
  }

  ghost predicate RevokedAt(revs: map<Digest, Revocation>, kid: Digest, at: int) {
    kid in revs && revs[kid].compromisedAt.Some? && at >= revs[kid].compromisedAt.value
  }

  /** The key was within a certified tenure and not declared compromised when it signed. */
  ghost predicate TrustedWhenSigned(trust: Trust, es: seq<Entry>, e: Entry) {
    && (exists c :: Certifies(RootsOf(trust, es), es, e.venueSig.kid, c) && e.ts >= c.validFrom)
    && !RevokedAt(InForce(trust, es), e.venueSig.kid, e.ts)
  }

  predicate Reseals(r: Entry, n: int) {
    r.typ == RESEAL && r.payload.fromSeq.Some? && r.payload.toSeq.Some? && r.payload.fromSeq.value <= n <= r.payload.toSeq.value
  }

  ghost predicate Resealed(trust: Trust, es: seq<Entry>, n: int) {
    exists i :: 0 <= i < |es| && Reseals(es[i], n) && TrustedWhenSigned(trust, es, es[i])
  }

  /** An entry stands if its key was trusted, if it is itself a key rotation, or if a trusted reseal covers it. */
  ghost predicate Stands(trust: Trust, es: seq<Entry>, e: Entry) {
    TrustedWhenSigned(trust, es, e) || e.typ == KEY_ROTATION || Resealed(trust, es, e.seqNo)
  }

  ghost predicate KeysProven(trust: Trust, es: seq<Entry>) {
    forall i :: 0 <= i < |es| ==>
      && (CarriesCert(es[i]) ==> CertSigned(RootsOf(trust, es), es[i].payload.cert.value))
      && (CarriesRevocation(es[i]) ==> RevocationCounts(RootsOf(trust, es), es[i].payload.revocation.value))
  }

  ghost predicate SignedAt(trust: Trust, es: seq<Entry>, i: nat)
    requires i < |es|
  {
    SignedByCertifiedKey(RootsOf(trust, es), es, es[i])
  }

  ghost predicate AllSigned(trust: Trust, es: seq<Entry>) {
    forall i :: 0 <= i < |es| ==> SignedAt(trust, es, i)
  }

  ghost predicate AllStand(trust: Trust, es: seq<Entry>) {
    forall i :: 0 <= i < |es| ==> Stands(trust, es, es[i])
  }

  ghost predicate Verifies(trust: Trust, es: seq<Entry>) {
    KeysProven(trust, es) && Chained(es) && AllSigned(trust, es) && AllStand(trust, es)
  }

  /** These are the numbers of the entries that do not stand. */
  ghost predicate NamesTheFallen(numbers: set<int>, trust: Trust, es: seq<Entry>) {
    forall n :: n in numbers <==> exists i :: 0 <= i < |es| && es[i].seqNo == n && !Stands(trust, es, es[i])
  }

  // ---------------------------------------------------------------- verification as it runs

  datatype ChainVerdict = Checked(untrustedSeqs: set<int>) | Rejected(firstBadSeq: int, defect: Defect) {
    predicate Ok() { Checked? && untrustedSeqs == {} }
  }

  /** The resolver's table holds exactly the certificates carried so far, filed by key. */
  ghost predicate Files(certs: map<Digest, seq<Cert>>, es: seq<Entry>, n: nat)
    requires n <= |es|
  {
    forall kid, c {:trigger Held(certs, kid, c)} ::
      Held(certs, kid, c) <==> c.kid == kid && exists i :: 0 <= i < n && CarriesCert(es[i]) && es[i].payload.cert.value == c
  }

  ghost predicate Held(certs: map<Digest, seq<Cert>>, kid: Digest, c: Cert) { kid in certs && c in certs[kid] }

  method CollectRoots(entries: seq<Entry>, trust: Trust) returns (resolver: Resolver)
    ensures fresh(resolver)
    ensures resolver.walk.roots == RootsOf(trust, entries)
    ensures resolver.certs == map[] && resolver.revs == KnownBefore(trust)
  {
    resolver := new Resolver(trust.root, History([], [], trust.revocations));
    var events := [];
    for i := 0 to |entries|
      invariant events == RootEvents(entries[..i])
    {
      assert entries[..i + 1][..i] == entries[..i];
      if CarriesRoot(entries[i]) { events := events + [entries[i].payload.rootEvent.value]; }
    }
    assert entries[..|entries|] == entries;
    var _ := resolver.ExtendRoots(events);
  }

  lemma FileOne(before: map<Digest, seq<Cert>>, after: map<Digest, seq<Cert>>, es: seq<Entry>, n: nat)
    requires n < |es| && Files(before, es, n)
    requires CarriesCert(es[n])
    requires forall kid, c {:trigger Held(after, kid, c)} ::
      Held(after, kid, c) <==> Held(before, kid, c) || (c == es[n].payload.cert.value && kid == c.kid)
    ensures Files(after, es, n + 1)
  {
    forall kid, c ensures Held(after, kid, c) <==> c.kid == kid && exists i :: 0 <= i < n + 1 && CarriesCert(es[i]) && es[i].payload.cert.value == c {
      assert Held(before, kid, c) <==> c.kid == kid && exists i :: 0 <= i < n && CarriesCert(es[i]) && es[i].payload.cert.value == c;
      if c == es[n].payload.cert.value { assert CarriesCert(es[n]); }
    }
  }

  method CollectKeys(entries: seq<Entry>, ghost trust: Trust, resolver: Resolver) returns (bad: Option<(int, Defect)>)
    requires resolver.walk.roots == RootsOf(trust, entries)
    requires resolver.certs == map[] && resolver.revs == KnownBefore(trust)
    modifies resolver
    ensures resolver.walk == old(resolver.walk)
    ensures bad.None? <==> KeysProven(trust, entries)
    ensures bad.None? ==> Files(resolver.certs, entries, |entries|) && resolver.revs == InForce(trust, entries)
  {
    for i := 0 to |entries|
      invariant resolver.walk == old(resolver.walk)
      invariant forall j :: 0 <= j < i ==>
        && (CarriesCert(entries[j]) ==> CertSigned(resolver.walk.roots, entries[j].payload.cert.value))
        && (CarriesRevocation(entries[j]) ==> RevocationCounts(resolver.walk.roots, entries[j].payload.revocation.value))
      invariant Files(resolver.certs, entries, i)
      invariant resolver.revs == RevokeAll(resolver.walk.roots, KnownBefore(trust), Revocations(entries[..i]))
    {
      var e := entries[i];
      assert entries[..i + 1][..i] == entries[..i];
      ghost var before := resolver.certs;
      if CarriesCert(e) {
        var ok := resolver.Add(e.payload.cert.value);
        if !ok { return Some((e.seqNo, CERTIFICATE)); }
        FileOne(before, resolver.certs, entries, i);
      }
      assert Files(resolver.certs, entries, i + 1);
      ghost var rs := Revocations(entries[..i]);
      assert Revocations(entries[..i + 1]) == rs + if CarriesRevocation(e) then [e.payload.revocation.value] else [];
      if CarriesRevocation(e) {
        var ok := resolver.Revoke(e.payload.revocation.value);
        if !ok { return Some((e.seqNo, REVOCATION)); }
        assert (rs + [e.payload.revocation.value])[..|rs|] == rs;
      } else {
        assert rs + [] == rs;
      }
    }
    assert entries[..|entries|] == entries;
    return None;
  }

  lemma KeyOfFiled(roots: Roots, certs: map<Digest, seq<Cert>>, es: seq<Entry>, kid: Digest)
    requires Files(certs, es, |es|)
    requires forall i :: 0 <= i < |es| && CarriesCert(es[i]) ==> CertSigned(roots, es[i].payload.cert.value)
    ensures var list := if kid in certs then certs[kid] else [];
      && (FirstTrusted(roots, list).None? ==> forall c :: !Certifies(roots, es, kid, c))
      && (FirstTrusted(roots, list).Some? ==>
            && Certifies(roots, es, kid, FirstTrusted(roots, list).value)
            && forall c :: Certifies(roots, es, kid, c) ==> c.key.x == FirstTrusted(roots, list).value.key.x)
  {
    var list := if kid in certs then certs[kid] else [];
    FirstTrustedFinds(roots, list);
    forall c ensures Certifies(roots, es, kid, c) <==> c in list && CertTrusted(roots, c) {
      assert Held(certs, kid, c) <==> c in list;
    }
    forall c | Certifies(roots, es, kid, c) ensures c.kid == Sha(c.key.x) { }
  }

  lemma TrustOfFiled(trust: Trust, es: seq<Entry>, list: seq<Cert>, certs: map<Digest, seq<Cert>>, e: Entry)
    requires Files(certs, es, |es|) && list == if e.venueSig.kid in certs then certs[e.venueSig.kid] else []
    ensures TrustedWhenSigned(trust, es, e) <==>
      TrustedAt(RootsOf(trust, es), list, if e.venueSig.kid in InForce(trust, es) then Some(InForce(trust, es)[e.venueSig.kid]) else None, e.ts)
  {
    var roots, kid := RootsOf(trust, es), e.venueSig.kid;
    forall c ensures Certifies(roots, es, kid, c) <==> c in list && CertTrusted(roots, c) {
      assert Held(certs, kid, c) <==> c in list;
    }
    if exists c :: Certifies(roots, es, kid, c) && e.ts >= c.validFrom {
      var c :| Certifies(roots, es, kid, c) && e.ts >= c.validFrom;
      var i :| 0 <= i < |list| && list[i] == c;
    }
    if i: nat :| i < |list| && CertTrusted(roots, list[i]) && e.ts >= list[i].validFrom {
      assert Certifies(roots, es, kid, list[i]);
    }
  }

  ghost predicate CheckedUpTo(trust: Trust, es: seq<Entry>, n: nat)
    requires n <= |es|
  {
    forall j :: 0 <= j < n ==> LinkAt(es, j) && SignedAt(trust, es, j)
  }

  ghost predicate SuspectAt(trust: Trust, es: seq<Entry>, j: nat, n: int)
    requires j < |es|
  {
    es[j].seqNo == n && !TrustedWhenSigned(trust, es, es[j]) && es[j].typ != KEY_ROTATION
  }

  ghost predicate ResealedAt(trust: Trust, es: seq<Entry>, j: nat, n: int)
    requires j < |es|
  {
    Reseals(es[j], n) && TrustedWhenSigned(trust, es, es[j])
  }

  ghost predicate Suspects(s: set<int>, trust: Trust, es: seq<Entry>, i: nat)
    requires i <= |es|
  {
    forall n :: n in s <==> exists j :: 0 <= j < i && SuspectAt(trust, es, j, n)
  }

  ghost predicate Covered(s: set<int>, trust: Trust, es: seq<Entry>, i: nat)
    requires i <= |es|
  {
    forall n :: n in s <==> exists j :: 0 <= j < i && ResealedAt(trust, es, j, n)
  }

  method MarkRange(resealed: set<int>, lo: int, hi: int) returns (r: set<int>)
    ensures forall k :: k in r <==> k in resealed || lo <= k <= hi
  {
    r := resealed;
    var n := lo;
    while n <= hi
      invariant lo <= n
      invariant forall k :: k in r <==> k in resealed || (lo <= k < n && k <= hi)
      decreases hi - n
    {
      r := r + {n};
      n := n + 1;
    }
  }

  method CheckEntry(entries: seq<Entry>, i: nat, prev: Hash, ghost trust: Trust, resolver: Resolver)
    returns (defect: Option<Defect>, trusted: bool)
    requires i < |entries| && prev == HeadHash(entries[..i])
    requires resolver.walk.roots == RootsOf(trust, entries) && KeysProven(trust, entries)
    requires Files(resolver.certs, entries, |entries|) && resolver.revs == InForce(trust, entries)
    ensures defect.None? <==> LinkAt(entries, i) && SignedByCertifiedKey(RootsOf(trust, entries), entries, entries[i])
    ensures defect.None? ==> (trusted <==> TrustedWhenSigned(trust, entries, entries[i]))
  {
    var e := entries[i];
    var kid := e.venueSig.kid;
    trusted := false;
    if e.prevHash != prev { return Some(PREV_HASH), trusted; }
    if EntryHash(e) != e.hash { return Some(CONTENT_HASH), trusted; }
    var key := resolver.Key(kid);
    KeyOfFiled(resolver.walk.roots, resolver.certs, entries, kid);
    if key.None? { return Some(UNKNOWN_KEY), trusted; }
    if !SignedBy(e, key.value.x) { return Some(SIGNATURE), trusted; }
    trusted := resolver.Trusted(kid, e.ts);
    TrustOfFiled(trust, entries, resolver.CertsOf(kid), resolver.certs, e);
    return None, trusted;
  }

  method CheckEntries(entries: seq<Entry>, ghost trust: Trust, resolver: Resolver) returns (v: ChainVerdict)
    requires resolver.walk.roots == RootsOf(trust, entries) && KeysProven(trust, entries)
    requires Files(resolver.certs, entries, |entries|) && resolver.revs == InForce(trust, entries)
    ensures v.Checked? <==> Chained(entries) && AllSigned(trust, entries)
    ensures v.Checked? ==> NamesTheFallen(v.untrustedSeqs, trust, entries)
    ensures v.Checked? ==> (v.untrustedSeqs == {} <==> AllStand(trust, entries))
  {
    var prev := Zero;
    var untrusted: set<int>, resealed: set<int> := {}, {};
    for i := 0 to |entries|
      invariant prev == HeadHash(entries[..i])
      invariant CheckedUpTo(trust, entries, i)
      invariant Suspects(untrusted, trust, entries, i)
      invariant Covered(resealed, trust, entries, i)
    {
      var e := entries[i];
      var defect, trusted := CheckEntry(entries, i, prev, trust, resolver);
      assert defect.None? <==> LinkAt(entries, i) && SignedAt(trust, entries, i);
      if defect.Some? {
        CheckedIsChainedAndSigned(trust, entries);
        return Rejected(e.seqNo, defect.value);
      }
      ghost var u0, r0 := untrusted, resealed;
      if !trusted && e.typ != KEY_ROTATION { untrusted := untrusted + {e.seqNo}; }
      SuspectOne(u0, untrusted, trust, entries, i);
      if e.typ == RESEAL && trusted && e.payload.fromSeq.Some? && e.payload.toSeq.Some? {
        resealed := MarkRange(resealed, e.payload.fromSeq.value, e.payload.toSeq.value);
      }
      CoverOne(r0, resealed, trust, entries, i);
      prev := e.hash;
    }
    v := Checked(untrusted - resealed);
    CheckedIsChainedAndSigned(trust, entries);
    ConcludeChecked(trust, entries, untrusted, resealed);
  }

  lemma SuspectOne(before: set<int>, after: set<int>, trust: Trust, es: seq<Entry>, i: nat)
    requires i < |es| && Suspects(before, trust, es, i)
    requires forall n :: n in after <==> n in before || SuspectAt(trust, es, i, n)
    ensures Suspects(after, trust, es, i + 1)
  {
    forall n ensures n in after <==> exists j :: 0 <= j < i + 1 && SuspectAt(trust, es, j, n) {
      if n in before { var j :| 0 <= j < i && SuspectAt(trust, es, j, n); }
    }
  }

  lemma CoverOne(before: set<int>, after: set<int>, trust: Trust, es: seq<Entry>, i: nat)
    requires i < |es| && Covered(before, trust, es, i)
    requires forall n :: n in after <==> n in before || ResealedAt(trust, es, i, n)
    ensures Covered(after, trust, es, i + 1)
  {
    forall n ensures n in after <==> exists j :: 0 <= j < i + 1 && ResealedAt(trust, es, j, n) {
      if n in before { var j :| 0 <= j < i && ResealedAt(trust, es, j, n); }
    }
  }

  lemma LeftOverIsUnstanding(trust: Trust, es: seq<Entry>, s: set<int>, r: set<int>)
    requires Suspects(s, trust, es, |es|) && Covered(r, trust, es, |es|)
    ensures NamesTheFallen(s - r, trust, es)
  {
    forall n ensures n in s - r <==> exists i :: 0 <= i < |es| && es[i].seqNo == n && !Stands(trust, es, es[i]) {
      assert n in r <==> Resealed(trust, es, n) by {
        if Resealed(trust, es, n) {
          var j :| 0 <= j < |es| && Reseals(es[j], n) && TrustedWhenSigned(trust, es, es[j]);
          assert ResealedAt(trust, es, j, n);
        }
      }
      if i :| 0 <= i < |es| && es[i].seqNo == n && !Stands(trust, es, es[i]) {
        assert SuspectAt(trust, es, i, n);
      }
    }
  }

  /** A chain is accepted from a pinned root exactly when it verifies. */
  method VerifyFromRoot(entries: seq<Entry>, trust: Trust) returns (v: ChainVerdict)
    ensures v.Ok() <==> Verifies(trust, entries)
    ensures v.Checked? ==> NamesTheFallen(v.untrustedSeqs, trust, entries)
  {
    var resolver := CollectRoots(entries, trust);
    var bad := CollectKeys(entries, trust, resolver);
    if bad.Some? { return Rejected(bad.value.0, bad.value.1); }
    v := CheckEntries(entries, trust, resolver);
  }

  lemma CheckedIsChainedAndSigned(trust: Trust, es: seq<Entry>)
    ensures CheckedUpTo(trust, es, |es|) <==> Chained(es) && AllSigned(trust, es)
  {
  }

  lemma ConcludeChecked(trust: Trust, es: seq<Entry>, s: set<int>, r: set<int>)
    requires Suspects(s, trust, es, |es|) && Covered(r, trust, es, |es|)
    ensures NamesTheFallen(s - r, trust, es)
    ensures s - r == {} <==> AllStand(trust, es)
  {
    LeftOverIsUnstanding(trust, es, s, r);
    var left := s - r;
    if left == {} {
      forall i | 0 <= i < |es| ensures Stands(trust, es, es[i]) { assert es[i].seqNo !in left; }
    }
    if AllStand(trust, es) {
      forall n ensures n !in left { }
      assert left == {};
    }
  }
}
