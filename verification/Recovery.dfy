/**
 Recovering a chain after an operational key is compromised: rotate to a root-certified successor,
 let the successor reseal what the compromise put in doubt, and the chain verifies again.
 */
module Recovery {
  import opened Wrappers
  import opened RootLog
  import opened VenueKeys
  import opened Chain
  import opened ChainTheorems
  import opened RootTrust

  function RotationPayload(c: Cert, r: Revocation): Payload {
    Payload(None, None, Some(c), Some(r), None, None, "")
  }

  function ResealPayload(lo: int, hi: int): Payload {
    Payload(None, None, None, None, Some(lo), Some(hi), "")
  }

  function Rotated(es: seq<Entry>, c: Cert, r: Revocation, ts: int, key: KeyPair): seq<Entry> {
    es + [Seal(|es|, ts, KEY_ROTATION, RotationPayload(c, r), HeadHash(es), key)]
  }

  /** A rotation to the successor and what the successor goes on to write. */
  function Recover(es: seq<Entry>, c: Cert, r: Revocation, ts: int, written: seq<Entry>, key: KeyPair): seq<Entry> {
    Reseal(Rotated(es, c, r, ts, key), written, key)
  }

  /** Says nothing about keys. */
  predicate Plain(e: Entry) { e.typ != KEY_ROTATION && !CarriesRoot(e) && !CarriesCert(e) }

  lemma ExtendedCarries(trust: Trust, es: seq<Entry>, e: Entry)
    requires !CarriesRoot(e)
    ensures RootsOf(trust, es + [e]) == RootsOf(trust, es)
    ensures CarriesRevocation(e) && RevocationCounts(RootsOf(trust, es), e.payload.revocation.value)
      ==> InForce(trust, es + [e]) == InForce(trust, es)[e.payload.revocation.value.kid := e.payload.revocation.value]
    ensures !CarriesRevocation(e) ==> InForce(trust, es + [e]) == InForce(trust, es)
  {
    assert (es + [e])[..|es|] == es;
    assert RootEvents(es) + [] == RootEvents(es);
    var rs := Revocations(es);
    if CarriesRevocation(e) {
      assert (rs + [e.payload.revocation.value])[..|rs|] == rs;
    } else {
      assert rs + [] == rs;
    }
  }

  lemma CertifiesKept(roots: Roots, es: seq<Entry>, more: seq<Entry>, kid: Digest, c: Cert)
    requires Certifies(roots, es, kid, c)
    ensures Certifies(roots, es + more, kid, c)
  {
    var i :| 0 <= i < |es| && CarriesCert(es[i]) && es[i].payload.cert.value == c;
    assert (es + more)[i] == es[i];
  }

  /** What the new revocation does not touch stays trusted. */
  lemma UntouchedStaysTrusted(trust: Trust, es: seq<Entry>, more: seq<Entry>, e: Entry)
    requires RootsOf(trust, es + more) == RootsOf(trust, es)
    requires TrustedWhenSigned(trust, es, e) && !RevokedAt(InForce(trust, es + more), e.venueSig.kid, e.ts)
    ensures TrustedWhenSigned(trust, es + more, e)
  {
    var c :| Certifies(RootsOf(trust, es), es, e.venueSig.kid, c) && e.ts >= c.validFrom;
    CertifiesKept(RootsOf(trust, es), es, more, e.venueSig.kid, c);
  }

  lemma SignedStaysSigned(roots: Roots, es: seq<Entry>, more: seq<Entry>, e: Entry)
    requires SignedByCertifiedKey(roots, es, e)
    ensures SignedByCertifiedKey(roots, es + more, e)
  {
    var c :| Certifies(roots, es, e.venueSig.kid, c) && SignedBy(e, c.key.x);
    CertifiesKept(roots, es, more, e.venueSig.kid, c);
  }

  predicate EntryProven(roots: Roots, e: Entry) {
    && (CarriesCert(e) ==> CertSigned(roots, e.payload.cert.value))
    && (CarriesRevocation(e) ==> RevocationCounts(roots, e.payload.revocation.value))
  }

  lemma ProvenStaysProven(trust: Trust, es: seq<Entry>, e: Entry)
    requires KeysProven(trust, es) && !CarriesRoot(e) && EntryProven(RootsOf(trust, es), e)
    ensures KeysProven(trust, es + [e])
  {
    ExtendedCarries(trust, es, e);
    var roots := RootsOf(trust, es);
    forall i | 0 <= i < |es| + 1 ensures EntryProven(roots, (es + [e])[i]) {
      if i < |es| { assert (es + [e])[i] == es[i]; }
    }
  }

  lemma {:induction false} WritingIsProven(trust: Trust, base: seq<Entry>, written: seq<Entry>, key: KeyPair)
    requires Book(base) && KeysProven(trust, base) && forall e :: e in written ==> Plain(e)
    ensures var out := Reseal(base, written, key);
      RootsOf(trust, out) == RootsOf(trust, base) && InForce(trust, out) == InForce(trust, base) && KeysProven(trust, out)
    decreases |written|
  {
    if written != [] {
      var w := written[0];
      assert w in written;
      var e := Seal(|base|, w.ts, w.typ, w.payload, HeadHash(base), key);
      AppendKeepsBook(base, w.typ, w.payload, w.ts, key);
      ExtendedCarries(trust, base, e);
      ProvenStaysProven(trust, base, e);
      assert forall f :: f in written[1..] ==> f in written;
      WritingIsProven(trust, base + [e], written[1..], key);
    }
  }

  lemma {:induction false} WritingShows(base: seq<Entry>, written: seq<Entry>, key: KeyPair)
    requires Book(base)
    ensures var out := Reseal(base, written, key);
      && Book(out) && |out| == |base| + |written| && base <= out
      && forall i :: 0 <= i < |written| ==> WrittenAs(out[|base| + i], written[i], key)
    decreases |written|
  {
    if written != [] {
      var w := written[0];
      AppendKeepsBook(base, w.typ, w.payload, w.ts, key);
      var next := base + [Seal(|base|, w.ts, w.typ, w.payload, HeadHash(base), key)];
      WritingShows(next, written[1..], key);
      var out := Reseal(base, written, key);
      assert out[|base|] == next[|base|];
      forall i | 0 <= i < |written| ensures WrittenAs(out[|base| + i], written[i], key) {
        if i > 0 { assert WrittenAs(out[|next| + (i - 1)], written[1..][i - 1], key); }
      }
    }
  }

  predicate WrittenAs(e: Entry, w: Entry, key: KeyPair) {
    ContentOf(e) == ContentOf(w) && e.venueSig == Sign(key, e.hash)
  }

  /** The successor's certificate and the revocation are properly signed; the successor is in good standing; what it writes is plain and in tenure. */
  ghost predicate Orderly(trust: Trust, es: seq<Entry>, c: Cert, r: Revocation, written: seq<Entry>, key: KeyPair) {
    && Book(es) && KeysProven(trust, es) && AllSigned(trust, es)
    && CertSigned(RootsOf(trust, es), c) && CertTrusted(RootsOf(trust, es), c) && key == KeyPair(c.key.x, c.kid)
    && RevocationCounts(RootsOf(trust, es), r) && r.kid != c.kid
    && forall e :: e in written ==> Plain(e) && e.ts >= c.validFrom && !RevokedAt(InForce(trust, es), c.kid, e.ts)
  }

  lemma RecoveryIsProven(trust: Trust, es: seq<Entry>, c: Cert, r: Revocation, ts: int, written: seq<Entry>, key: KeyPair)
    requires Orderly(trust, es, c, r, written, key)
    ensures var out := Recover(es, c, r, ts, written, key);
      && RootsOf(trust, out) == RootsOf(trust, es)
      && InForce(trust, out) == InForce(trust, es)[r.kid := r]
      && KeysProven(trust, out)
  {
    var rotation := Seal(|es|, ts, KEY_ROTATION, RotationPayload(c, r), HeadHash(es), key);
    ExtendedCarries(trust, es, rotation);
    ProvenStaysProven(trust, es, rotation);
    AppendKeepsBook(es, KEY_ROTATION, RotationPayload(c, r), ts, key);
    WritingIsProven(trust, Rotated(es, c, r, ts, key), written, key);
  }

  /** What the recovered chain looks like: the old entries, the rotation, what the successor wrote. */
  lemma RecoveryShows(es: seq<Entry>, c: Cert, r: Revocation, ts: int, written: seq<Entry>, key: KeyPair)
    requires Book(es)
    ensures var out := Recover(es, c, r, ts, written, key);
      && Book(out) && |out| == |es| + 1 + |written|
      && (forall i :: 0 <= i < |es| ==> out[i] == es[i])
      && out[|es|] == Seal(|es|, ts, KEY_ROTATION, RotationPayload(c, r), HeadHash(es), key)
      && (forall i :: 0 <= i < |written| ==> WrittenAs(out[|es| + 1 + i], written[i], key))
  {
    AppendKeepsBook(es, KEY_ROTATION, RotationPayload(c, r), ts, key);
    var base := Rotated(es, c, r, ts, key);
    WritingShows(base, written, key);
    forall i | 0 <= i < |es| ensures Recover(es, c, r, ts, written, key)[i] == es[i] { assert base[i] == es[i]; }
    assert base[|es|] == Recover(es, c, r, ts, written, key)[|es|];
  }

  /** The certificates known afterwards: those known before, and the successor's. */
  lemma RecoveryCertifies(roots: Roots, es: seq<Entry>, c: Cert, r: Revocation, ts: int, written: seq<Entry>, key: KeyPair, kid: Digest, d: Cert)
    requires Book(es) && CertTrusted(roots, c) && forall e :: e in written ==> Plain(e)
    ensures Certifies(roots, Recover(es, c, r, ts, written, key), kid, d) <==> Certifies(roots, es, kid, d) || (d == c && kid == c.kid)
  {
    var out := Recover(es, c, r, ts, written, key);
    RecoveryShows(es, c, r, ts, written, key);
    forall i | |es| < i < |out| ensures !CarriesCert(out[i]) {
      assert WrittenAs(out[|es| + 1 + (i - |es| - 1)], written[i - |es| - 1], key) && written[i - |es| - 1] in written;
    }
    if Certifies(roots, out, kid, d) {
      var i :| 0 <= i < |out| && CarriesCert(out[i]) && out[i].payload.cert.value == d;
      if i < |es| { assert out[i] == es[i]; }
    }
    if Certifies(roots, es, kid, d) {
      var i :| 0 <= i < |es| && CarriesCert(es[i]) && es[i].payload.cert.value == d;
      assert out[i] == es[i];
    }
    assert CarriesCert(out[|es|]) && out[|es|].payload.cert.value == c;
  }

  /** Beyond doubt once `c` is certified and `r` declared. */
  ghost predicate Clear(trust: Trust, es: seq<Entry>, c: Cert, r: Revocation, e: Entry) {
    && (exists d :: (Certifies(RootsOf(trust, es), es, e.venueSig.kid, d) || (d == c && c.kid == e.venueSig.kid)) && e.ts >= d.validFrom)
    && !RevokedAt(InForce(trust, es)[r.kid := r], e.venueSig.kid, e.ts)
  }

  lemma TrustedExactlyWhenClear(trust: Trust, es: seq<Entry>, c: Cert, r: Revocation, ts: int, written: seq<Entry>, key: KeyPair, e: Entry)
    requires Orderly(trust, es, c, r, written, key)
    ensures TrustedWhenSigned(trust, Recover(es, c, r, ts, written, key), e) <==> Clear(trust, es, c, r, e)
  {
    RecoveryIsProven(trust, es, c, r, ts, written, key);
    forall d ensures Certifies(RootsOf(trust, es), Recover(es, c, r, ts, written, key), e.venueSig.kid, d)
      <==> Certifies(RootsOf(trust, es), es, e.venueSig.kid, d) || (d == c && e.venueSig.kid == c.kid)
    {
      RecoveryCertifies(RootsOf(trust, es), es, c, r, ts, written, key, e.venueSig.kid, d);
    }
  }

  lemma SealedIsSigned(roots: Roots, out: seq<Entry>, e: Entry, c: Cert, key: KeyPair)
    requires Certifies(roots, out, c.kid, c) && key == KeyPair(c.key.x, c.kid) && e.venueSig == Sign(key, e.hash)
    ensures SignedByCertifiedKey(roots, out, e)
  {
    assert SignedBy(e, c.key.x);
  }

  lemma OldIsSigned(roots: Roots, es: seq<Entry>, out: seq<Entry>, i: nat)
    requires i < |es| <= |out| && es == out[..|es|] && SignedByCertifiedKey(roots, es, es[i])
    ensures SignedByCertifiedKey(roots, out, out[i])
  {
    assert out == es + out[|es|..];
    SignedStaysSigned(roots, es, out[|es|..], es[i]);
  }

  lemma NewSignature(es: seq<Entry>, c: Cert, r: Revocation, ts: int, written: seq<Entry>, key: KeyPair, i: nat)
    requires Book(es) && |es| <= i < |Recover(es, c, r, ts, written, key)|
    ensures var e := Recover(es, c, r, ts, written, key)[i]; e.venueSig == Sign(key, e.hash)
  {
    RecoveryShows(es, c, r, ts, written, key);
    if i > |es| { assert WrittenAs(Recover(es, c, r, ts, written, key)[|es| + 1 + (i - |es| - 1)], written[i - |es| - 1], key); }
  }

  lemma EntryIsSigned(trust: Trust, es: seq<Entry>, c: Cert, r: Revocation, ts: int, written: seq<Entry>, key: KeyPair, i: nat)
    requires Orderly(trust, es, c, r, written, key) && i < |Recover(es, c, r, ts, written, key)|
    ensures var out := Recover(es, c, r, ts, written, key); SignedByCertifiedKey(RootsOf(trust, es), out, out[i])
  {
    var out := Recover(es, c, r, ts, written, key);
    var roots := RootsOf(trust, es);
    if i < |es| {
      RecoveryShows(es, c, r, ts, written, key);
      assert es == out[..|es|] && SignedAt(trust, es, i);
      OldIsSigned(roots, es, out, i);
    } else {
      NewIsSigned(trust, es, c, r, ts, written, key, i);
    }
  }

  lemma NewIsSigned(trust: Trust, es: seq<Entry>, c: Cert, r: Revocation, ts: int, written: seq<Entry>, key: KeyPair, i: nat)
    requires Orderly(trust, es, c, r, written, key) && |es| <= i < |Recover(es, c, r, ts, written, key)|
    ensures var out := Recover(es, c, r, ts, written, key); SignedByCertifiedKey(RootsOf(trust, es), out, out[i])
  {
    var out := Recover(es, c, r, ts, written, key);
    RecoveryCertifies(RootsOf(trust, es), es, c, r, ts, written, key, c.kid, c);
    NewSignature(es, c, r, ts, written, key, i);
    SealedIsSigned(RootsOf(trust, es), out, out[i], c, key);
  }

  lemma RecoveryIsSigned(trust: Trust, es: seq<Entry>, c: Cert, r: Revocation, ts: int, written: seq<Entry>, key: KeyPair)
    requires Orderly(trust, es, c, r, written, key)
    ensures AllSigned(trust, Recover(es, c, r, ts, written, key))
  {
    var out := Recover(es, c, r, ts, written, key);
    RecoveryIsProven(trust, es, c, r, ts, written, key);
    forall i: nat | i < |out| ensures SignedByCertifiedKey(RootsOf(trust, es), out, out[i]) {
      EntryIsSigned(trust, es, c, r, ts, written, key, i);
    }
  }

  /** A reseal the recovered chain trusts covers this number: an old one that is clear, or one the successor wrote. */
  ghost predicate ResealedSince(trust: Trust, es: seq<Entry>, c: Cert, r: Revocation, written: seq<Entry>, n: int) {
    || (exists i :: 0 <= i < |es| && Reseals(es[i], n) && Clear(trust, es, c, r, es[i]))
    || (exists i :: 0 <= i < |written| && Reseals(written[i], n))
  }

  ghost predicate DoubtsResealed(trust: Trust, es: seq<Entry>, c: Cert, r: Revocation, written: seq<Entry>) {
    forall i :: 0 <= i < |es| && es[i].typ != KEY_ROTATION && !Clear(trust, es, c, r, es[i]) ==> ResealedSince(trust, es, c, r, written, es[i].seqNo)
  }

  lemma InTenureIsClear(trust: Trust, es: seq<Entry>, c: Cert, r: Revocation, e: Entry)
    requires e.venueSig.kid == c.kid && e.ts >= c.validFrom && !RevokedAt(InForce(trust, es), c.kid, e.ts) && r.kid != c.kid
    ensures Clear(trust, es, c, r, e)
  {
  }

  lemma WrittenInTenure(trust: Trust, es: seq<Entry>, c: Cert, r: Revocation, ts: int, written: seq<Entry>, key: KeyPair, i: nat)
    requires Orderly(trust, es, c, r, written, key) && |es| < i < |Recover(es, c, r, ts, written, key)|
    ensures Clear(trust, es, c, r, Recover(es, c, r, ts, written, key)[i])
  {
    RecoveryShows(es, c, r, ts, written, key);
    var e, w := Recover(es, c, r, ts, written, key)[i], written[i - |es| - 1];
    assert WrittenAs(Recover(es, c, r, ts, written, key)[|es| + 1 + (i - |es| - 1)], w, key) && w in written;
    assert ContentOf(e).ts == ContentOf(w).ts;
    InTenureIsClear(trust, es, c, r, e);
  }

  lemma WrittenIsTrusted(trust: Trust, es: seq<Entry>, c: Cert, r: Revocation, ts: int, written: seq<Entry>, key: KeyPair, i: nat)
    requires Orderly(trust, es, c, r, written, key) && |es| < i < |Recover(es, c, r, ts, written, key)|
    ensures TrustedWhenSigned(trust, Recover(es, c, r, ts, written, key), Recover(es, c, r, ts, written, key)[i])
  {
    WrittenInTenure(trust, es, c, r, ts, written, key, i);
    TrustedExactlyWhenClear(trust, es, c, r, ts, written, key, Recover(es, c, r, ts, written, key)[i]);
  }

  lemma ResealIsOldOrWritten(trust: Trust, es: seq<Entry>, c: Cert, r: Revocation, ts: int, written: seq<Entry>, key: KeyPair, n: int, i: nat)
    requires Orderly(trust, es, c, r, written, key) && i < |Recover(es, c, r, ts, written, key)|
    requires var out := Recover(es, c, r, ts, written, key); Reseals(out[i], n) && TrustedWhenSigned(trust, out, out[i])
    ensures ResealedSince(trust, es, c, r, written, n)
  {
    var out := Recover(es, c, r, ts, written, key);
    RecoveryShows(es, c, r, ts, written, key);
    if i < |es| {
      assert out[i] == es[i];
      TrustedExactlyWhenClear(trust, es, c, r, ts, written, key, es[i]);
    } else if i > |es| {
      assert WrittenAs(out[|es| + 1 + (i - |es| - 1)], written[i - |es| - 1], key);
      assert Reseals(written[i - |es| - 1], n);
    }
  }

  lemma TrustedResealHolds(trust: Trust, out: seq<Entry>, n: int, i: nat)
    requires i < |out| && Reseals(out[i], n) && TrustedWhenSigned(trust, out, out[i])
    ensures Resealed(trust, out, n)
  {
  }

  lemma OldResealHolds(trust: Trust, es: seq<Entry>, c: Cert, r: Revocation, ts: int, written: seq<Entry>, key: KeyPair, n: int, i: nat)
    requires Orderly(trust, es, c, r, written, key) && i < |es| && Reseals(es[i], n) && Clear(trust, es, c, r, es[i])
    ensures Resealed(trust, Recover(es, c, r, ts, written, key), n)
  {
    RecoveryShows(es, c, r, ts, written, key);
    TrustedExactlyWhenClear(trust, es, c, r, ts, written, key, es[i]);
    TrustedResealHolds(trust, Recover(es, c, r, ts, written, key), n, i);
  }

  lemma WrittenReseals(es: seq<Entry>, c: Cert, r: Revocation, ts: int, written: seq<Entry>, key: KeyPair, n: int, i: nat) returns (j: nat)
    requires Book(es) && i < |written| && Reseals(written[i], n)
    ensures |es| < j < |Recover(es, c, r, ts, written, key)| && Reseals(Recover(es, c, r, ts, written, key)[j], n)
  {
    RecoveryShows(es, c, r, ts, written, key);
    j := |es| + 1 + i;
    assert WrittenAs(Recover(es, c, r, ts, written, key)[j], written[i], key);
  }

  lemma WrittenResealHolds(trust: Trust, es: seq<Entry>, c: Cert, r: Revocation, ts: int, written: seq<Entry>, key: KeyPair, n: int, i: nat)
    requires Orderly(trust, es, c, r, written, key) && i < |written| && Reseals(written[i], n)
    ensures Resealed(trust, Recover(es, c, r, ts, written, key), n)
  {
    var j := WrittenReseals(es, c, r, ts, written, key, n, i);
    WrittenIsTrusted(trust, es, c, r, ts, written, key, j);
    TrustedResealHolds(trust, Recover(es, c, r, ts, written, key), n, j);
  }

  lemma ResealedExactlyWhenSince(trust: Trust, es: seq<Entry>, c: Cert, r: Revocation, ts: int, written: seq<Entry>, key: KeyPair, n: int)
    requires Orderly(trust, es, c, r, written, key)
    ensures Resealed(trust, Recover(es, c, r, ts, written, key), n) <==> ResealedSince(trust, es, c, r, written, n)
  {
    var out := Recover(es, c, r, ts, written, key);
    if Resealed(trust, out, n) {
      var i :| 0 <= i < |out| && Reseals(out[i], n) && TrustedWhenSigned(trust, out, out[i]);
      ResealIsOldOrWritten(trust, es, c, r, ts, written, key, n, i);
    }
    if ResealedSince(trust, es, c, r, written, n) { SinceIsResealed(trust, es, c, r, ts, written, key, n); }
  }

  lemma SinceIsResealed(trust: Trust, es: seq<Entry>, c: Cert, r: Revocation, ts: int, written: seq<Entry>, key: KeyPair, n: int)
    requires Orderly(trust, es, c, r, written, key) && ResealedSince(trust, es, c, r, written, n)
    ensures Resealed(trust, Recover(es, c, r, ts, written, key), n)
  {
    if i :| 0 <= i < |es| && Reseals(es[i], n) && Clear(trust, es, c, r, es[i]) {
      OldResealHolds(trust, es, c, r, ts, written, key, n, i);
    } else {
      var i :| 0 <= i < |written| && Reseals(written[i], n);
      WrittenResealHolds(trust, es, c, r, ts, written, key, n, i);
    }
  }

  lemma OldStandsExactlyWhen(trust: Trust, es: seq<Entry>, c: Cert, r: Revocation, ts: int, written: seq<Entry>, key: KeyPair, i: nat)
    requires Orderly(trust, es, c, r, written, key) && i < |es|
    ensures Stands(trust, Recover(es, c, r, ts, written, key), es[i]) <==>
        (es[i].typ != KEY_ROTATION && !Clear(trust, es, c, r, es[i]) ==> ResealedSince(trust, es, c, r, written, es[i].seqNo))
  {
    TrustedExactlyWhenClear(trust, es, c, r, ts, written, key, es[i]);
    ResealedExactlyWhenSince(trust, es, c, r, ts, written, key, es[i].seqNo);
  }

  lemma StandsAtOnce(trust: Trust, es: seq<Entry>, e: Entry)
    requires TrustedWhenSigned(trust, es, e) || e.typ == KEY_ROTATION
    ensures Stands(trust, es, e)
  {
  }

  lemma RotationStands(trust: Trust, es: seq<Entry>, c: Cert, r: Revocation, ts: int, written: seq<Entry>, key: KeyPair)
    requires Book(es)
    ensures |Recover(es, c, r, ts, written, key)| == |es| + 1 + |written|
    ensures Stands(trust, Recover(es, c, r, ts, written, key), Recover(es, c, r, ts, written, key)[|es|])
  {
    RecoveryShows(es, c, r, ts, written, key);
    StandsAtOnce(trust, Recover(es, c, r, ts, written, key), Recover(es, c, r, ts, written, key)[|es|]);
  }

  lemma WrittenStands(trust: Trust, es: seq<Entry>, c: Cert, r: Revocation, ts: int, written: seq<Entry>, key: KeyPair, i: nat)
    requires Orderly(trust, es, c, r, written, key) && |es| < i < |Recover(es, c, r, ts, written, key)|
    ensures Stands(trust, Recover(es, c, r, ts, written, key), Recover(es, c, r, ts, written, key)[i])
  {
    WrittenIsTrusted(trust, es, c, r, ts, written, key, i);
    StandsAtOnce(trust, Recover(es, c, r, ts, written, key), Recover(es, c, r, ts, written, key)[i]);
  }

  ghost predicate StandsFrom(trust: Trust, out: seq<Entry>, n: nat) { forall i :: n <= i < |out| ==> Stands(trust, out, out[i]) }

  lemma NewStand(trust: Trust, es: seq<Entry>, c: Cert, r: Revocation, ts: int, written: seq<Entry>, key: KeyPair)
    requires Orderly(trust, es, c, r, written, key)
    ensures StandsFrom(trust, Recover(es, c, r, ts, written, key), |es|)
  {
    var out := Recover(es, c, r, ts, written, key);
    RotationStands(trust, es, c, r, ts, written, key);
    forall i | |es| <= i < |out| ensures Stands(trust, out, out[i]) {
      if i > |es| { WrittenStands(trust, es, c, r, ts, written, key, i); }
    }
  }

  lemma RecoveryStandsExactlyWhen(trust: Trust, es: seq<Entry>, c: Cert, r: Revocation, ts: int, written: seq<Entry>, key: KeyPair)
    requires Orderly(trust, es, c, r, written, key)
    ensures AllStand(trust, Recover(es, c, r, ts, written, key)) <==> DoubtsResealed(trust, es, c, r, written)
  {
    var out := Recover(es, c, r, ts, written, key);
    RecoveryShows(es, c, r, ts, written, key);
    forall i: nat | i < |es|
      ensures out[i] == es[i]
      ensures Stands(trust, out, es[i]) <==>
        (es[i].typ != KEY_ROTATION && !Clear(trust, es, c, r, es[i]) ==> ResealedSince(trust, es, c, r, written, es[i].seqNo))
    {
      OldStandsExactlyWhen(trust, es, c, r, ts, written, key, i);
    }
    NewStand(trust, es, c, r, ts, written, key);
  }

  /**
   When does a chain verify again? Take any chain whose links, keys and signatures are in order, whatever on it is
   no longer trusted. After a rotation to a successor in good standing, and whatever plain entries the successor
   writes in its tenure, it verifies exactly when every old entry, rotations apart, that is not clear of the
   revocation is covered by a reseal: an old one that is clear itself, or one the successor wrote.
   */
  lemma RotationRestoresExactlyWhenDoubtsAreResealed(
      trust: Trust, es: seq<Entry>, c: Cert, r: Revocation, ts: int, written: seq<Entry>, key: KeyPair)
    requires Orderly(trust, es, c, r, written, key)
    ensures Verifies(trust, Recover(es, c, r, ts, written, key)) <==> DoubtsResealed(trust, es, c, r, written)
  {
    RecoveryShows(es, c, r, ts, written, key);
    RecoveryIsProven(trust, es, c, r, ts, written, key);
    RecoveryIsSigned(trust, es, c, r, ts, written, key);
    RecoveryStandsExactlyWhen(trust, es, c, r, ts, written, key);
  }

  // ---------------------------------------------------------------- one covering reseal is enough

  /** In doubt once `r` is declared: not trusted before, or signed under the revoked key since its compromise. */
  ghost predicate InDoubt(trust: Trust, es: seq<Entry>, r: Revocation, e: Entry) {
    || !TrustedWhenSigned(trust, es, e)
    || (e.venueSig.kid == r.kid && r.compromisedAt.Some? && e.ts >= r.compromisedAt.value)
  }

  ghost predicate CoversDoubt(trust: Trust, es: seq<Entry>, r: Revocation, lo: int, hi: int) {
    forall i :: 0 <= i < |es| && es[i].typ != KEY_ROTATION && InDoubt(trust, es, r, es[i]) ==> lo <= es[i].seqNo <= hi
  }

  /**
   A compromise followed by a rotation and, then or later, one covering reseal always verifies again: the reseal
   must cover every entry (rotations apart) that was in doubt already or that the new revocation puts in doubt.
   */
  lemma RotationAndResealRestoreTheChain(
      trust: Trust, es: seq<Entry>, c: Cert, r: Revocation, ts: int, before: seq<Entry>, reseal: Entry, lo: int, hi: int, key: KeyPair)
    requires Orderly(trust, es, c, r, before + [reseal], key)
    requires reseal.typ == RESEAL && reseal.payload == ResealPayload(lo, hi) && CoversDoubt(trust, es, r, lo, hi)
    ensures Verifies(trust, Recover(es, c, r, ts, before + [reseal], key))
  {
    CoveringResealSettlesDoubt(trust, es, c, r, before, reseal, lo, hi);
    RotationRestoresExactlyWhenDoubtsAreResealed(trust, es, c, r, ts, before + [reseal], key);
  }

  lemma CoveringResealSettlesDoubt(trust: Trust, es: seq<Entry>, c: Cert, r: Revocation, before: seq<Entry>, reseal: Entry, lo: int, hi: int)
    requires reseal.typ == RESEAL && reseal.payload == ResealPayload(lo, hi) && CoversDoubt(trust, es, r, lo, hi)
    ensures DoubtsResealed(trust, es, c, r, before + [reseal])
  {
    var written := before + [reseal];
    forall i | 0 <= i < |es| && es[i].typ != KEY_ROTATION && !Clear(trust, es, c, r, es[i])
      ensures ResealedSince(trust, es, c, r, written, es[i].seqNo)
    {
      UndoubtedIsClear(trust, es, c, r, es[i]);
      assert Reseals(written[|before|], es[i].seqNo);
    }
  }

  lemma UndoubtedIsClear(trust: Trust, es: seq<Entry>, c: Cert, r: Revocation, e: Entry)
    ensures !InDoubt(trust, es, r, e) ==> Clear(trust, es, c, r, e)
  {
  }
}
