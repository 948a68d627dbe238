/**
 Where a reseal stands in the chain. The comment on `verifyChain` (src/ledger/chain.ts:118-134) asks for a later
 reseal; the code takes any, also one written before the entries it covers.
 */
module ResealOrder {
  import opened Wrappers
  import opened RootLog
  import opened VenueKeys
  import opened Chain
  import opened ChainTheorems
  import opened RootTrust
  import opened Recovery

  /** A trusted reseal further on covers entry `i`. */
  ghost predicate ResealedLater(trust: Trust, es: seq<Entry>, i: nat)
    requires i < |es|
  {
    exists j :: i < j < |es| && Reseals(es[j], es[i].seqNo) && TrustedWhenSigned(trust, es, es[j])
  }

  ghost predicate StandsByLater(trust: Trust, es: seq<Entry>, i: nat)
    requires i < |es|
  {
    TrustedWhenSigned(trust, es, es[i]) || es[i].typ == KEY_ROTATION || ResealedLater(trust, es, i)
  }

  /** What the comment promises. */
  ghost predicate VerifiesByLater(trust: Trust, es: seq<Entry>) {
    KeysProven(trust, es) && Chained(es) && AllSigned(trust, es) && forall i :: 0 <= i < |es| ==> StandsByLater(trust, es, i)
  }

  /** An entry only a reseal can save, and some reseal covers. */
  ghost predicate Excused(trust: Trust, es: seq<Entry>, i: nat)
    requires i < |es|
  {
    !TrustedWhenSigned(trust, es, es[i]) && es[i].typ != KEY_ROTATION && Resealed(trust, es, es[i].seqNo)
  }

  lemma LaterIsEnough(trust: Trust, es: seq<Entry>, i: nat)
    requires i < |es| && StandsByLater(trust, es, i)
    ensures Stands(trust, es, es[i])
  {
  }

  /** The two readings of a chain agree, entry by entry, exactly when whatever a trusted reseal excuses is also covered by a later one. */
  lemma ReadingsAgreeExactlyWhen(trust: Trust, es: seq<Entry>)
    ensures (forall i :: 0 <= i < |es| ==> (Stands(trust, es, es[i]) <==> StandsByLater(trust, es, i)))
      <==> (forall i :: 0 <= i < |es| && Excused(trust, es, i) ==> ResealedLater(trust, es, i))
  {
    forall i: nat | i < |es|
      ensures (Stands(trust, es, es[i]) <==> StandsByLater(trust, es, i)) <==> (Excused(trust, es, i) ==> ResealedLater(trust, es, i))
    {
      if StandsByLater(trust, es, i) { LaterIsEnough(trust, es, i); }
    }
  }

  /** A chain that verifies also verifies as the comment has it exactly when whatever is excused is excused by a later reseal. */
  lemma VerdictsAgreeExactlyWhen(trust: Trust, es: seq<Entry>)
    requires Verifies(trust, es)
    ensures VerifiesByLater(trust, es) <==> forall i :: 0 <= i < |es| && Excused(trust, es, i) ==> ResealedLater(trust, es, i)
  {
    forall i: nat | i < |es| ensures StandsByLater(trust, es, i) <==> (Excused(trust, es, i) ==> ResealedLater(trust, es, i)) {
      assert Stands(trust, es, es[i]);
      StandingByLaterExactlyWhen(trust, es, i);
    }
  }

  lemma StandingByLaterExactlyWhen(trust: Trust, es: seq<Entry>, i: nat)
    requires i < |es| && Stands(trust, es, es[i])
    ensures StandsByLater(trust, es, i) <==> (Excused(trust, es, i) ==> ResealedLater(trust, es, i))
  {
  }

  /** The guard that would make the comment true: every trusted reseal reaches no further than the entry before it. */
  ghost predicate LooksBack(trust: Trust, es: seq<Entry>) {
    forall j :: 0 <= j < |es| && es[j].typ == RESEAL && es[j].payload.toSeq.Some? && TrustedWhenSigned(trust, es, es[j]) ==> es[j].payload.toSeq.value < es[j].seqNo
  }

  lemma ExcusedByALater(trust: Trust, es: seq<Entry>, i: nat)
    requires Book(es) && LooksBack(trust, es) && i < |es| && Excused(trust, es, i)
    ensures ResealedLater(trust, es, i)
  {
    var j :| 0 <= j < |es| && Reseals(es[j], es[i].seqNo) && TrustedWhenSigned(trust, es, es[j]);
    assert es[j].seqNo == j && es[i].seqNo == i;
  }

  lemma BackwardResealsAreLater(trust: Trust, es: seq<Entry>)
    requires Verifies(trust, es) && Book(es) && LooksBack(trust, es)
    ensures VerifiesByLater(trust, es)
  {
    forall i: nat | i < |es| && Excused(trust, es, i) ensures ResealedLater(trust, es, i) { ExcusedByALater(trust, es, i); }
    VerdictsAgreeExactlyWhen(trust, es);
  }

  // ---------------------------------------------------------------- an entry excused beforehand

  lemma PlainChangesNoTrust(trust: Trust, es: seq<Entry>, e: Entry, x: Entry)
    requires Plain(e)
    ensures TrustedWhenSigned(trust, es + [e], x) <==> TrustedWhenSigned(trust, es, x)
  {
    ExtendedCarries(trust, es, e);
    forall d ensures Certifies(RootsOf(trust, es), es + [e], x.venueSig.kid, d) <==> Certifies(RootsOf(trust, es), es, x.venueSig.kid, d) {
      PlainCertifies(RootsOf(trust, es), es, e, x.venueSig.kid, d);
    }
  }

  lemma PlainCertifies(roots: Roots, es: seq<Entry>, e: Entry, kid: Digest, d: Cert)
    requires Plain(e)
    ensures Certifies(roots, es + [e], kid, d) <==> Certifies(roots, es, kid, d)
  {
    if Certifies(roots, es, kid, d) { CertifiesKept(roots, es, [e], kid, d); }
  }

  lemma PlainKeepsStanding(trust: Trust, es: seq<Entry>, e: Entry)
    requires Book(es) && Plain(e) && AllStand(trust, es)
    ensures forall i :: 0 <= i < |es| ==> Stands(trust, es + [e], es[i])
  {
    forall i: nat | i < |es| ensures Stands(trust, es + [e], es[i]) {
      assert Stands(trust, es, es[i]);
      PlainChangesNoTrust(trust, es, e, es[i]);
      if Resealed(trust, es, es[i].seqNo) { PlainKeepsReseals(trust, es, e, es[i].seqNo); }
    }
  }

  lemma PlainKeepsReseals(trust: Trust, es: seq<Entry>, e: Entry, n: int)
    requires Plain(e) && Resealed(trust, es, n)
    ensures Resealed(trust, es + [e], n)
  {
    var j :| 0 <= j < |es| && Reseals(es[j], n) && TrustedWhenSigned(trust, es, es[j]);
    PlainChangesNoTrust(trust, es, e, es[j]);
    TrustedResealHolds(trust, es + [e], n, j);
  }

  lemma OnlyOldReseals(trust: Trust, es: seq<Entry>, e: Entry, n: int)
    requires Plain(e) && !TrustedWhenSigned(trust, es, e)
    ensures Resealed(trust, es + [e], n) <==> Resealed(trust, es, n)
  {
    if Resealed(trust, es, n) { PlainKeepsReseals(trust, es, e, n); }
    if Resealed(trust, es + [e], n) {
      var j :| 0 <= j < |es| + 1 && Reseals((es + [e])[j], n) && TrustedWhenSigned(trust, es + [e], (es + [e])[j]);
      PlainChangesNoTrust(trust, es, e, (es + [e])[j]);
      assert j < |es| && (es + [e])[j] == es[j];
    }
  }

  lemma PlainStaysProvenAndSigned(trust: Trust, es: seq<Entry>, e: Entry)
    requires KeysProven(trust, es) && AllSigned(trust, es) && Plain(e) && SignedByCertifiedKey(RootsOf(trust, es), es, e)
    ensures KeysProven(trust, es + [e]) && AllSigned(trust, es + [e])
  {
    ProvenStaysProven(trust, es, e);
    ExtendedCarries(trust, es, e);
    SignedStaysSigned(RootsOf(trust, es), es, [e], e);
    ExtendedIsSignedExactlyWhen(trust, es, e);
  }

  /**
   Append, to a chain that verifies, an entry signed by a key the chain certifies and no longer trusts. The chain
   still verifies exactly when a trusted reseal already there covers the number; as the comment has it, never.
   */
  lemma UntrustedAppendVerifiesExactlyWhen(trust: Trust, es: seq<Entry>, ts: int, typ: EntryType, payload: Payload, key: KeyPair)
    requires Verifies(trust, es) && Book(es)
    requires var e := Seal(|es|, ts, typ, payload, HeadHash(es), key);
      Plain(e) && SignedByCertifiedKey(RootsOf(trust, es), es, e) && !TrustedWhenSigned(trust, es, e)
    ensures var out := es + [Seal(|es|, ts, typ, payload, HeadHash(es), key)];
      (Verifies(trust, out) <==> Resealed(trust, es, |es|)) && !VerifiesByLater(trust, out)
  {
    var e := Seal(|es|, ts, typ, payload, HeadHash(es), key);
    AppendKeepsBook(es, typ, payload, ts, key);
    PlainStaysProvenAndSigned(trust, es, e);
    UntrustedExtensionVerifiesExactlyWhen(trust, es, e);
  }

  lemma UntrustedExtensionVerifiesExactlyWhen(trust: Trust, es: seq<Entry>, e: Entry)
    requires AllStand(trust, es) && Book(es) && e.seqNo == |es| && Plain(e) && !TrustedWhenSigned(trust, es, e)
    requires KeysProven(trust, es + [e]) && Chained(es + [e]) && AllSigned(trust, es + [e])
    ensures Verifies(trust, es + [e]) <==> Resealed(trust, es, |es|)
    ensures !VerifiesByLater(trust, es + [e])
  {
    StandingDecides(trust, es + [e]);
    UntrustedStandingExactlyWhen(trust, es, e);
  }

  lemma UntrustedStandingExactlyWhen(trust: Trust, es: seq<Entry>, e: Entry)
    requires AllStand(trust, es) && Book(es) && e.seqNo == |es| && Plain(e) && !TrustedWhenSigned(trust, es, e)
    ensures AllStand(trust, es + [e]) <==> Resealed(trust, es, |es|)
    ensures !VerifiesByLater(trust, es + [e])
  {
    PlainKeepsStanding(trust, es, e);
    UntrustedStandsExactlyWhen(trust, es, e);
    AppendedStandsExactlyWhen(trust, es, e);
    LastHasNoLater(trust, es, e);
  }

  lemma StandingDecides(trust: Trust, es: seq<Entry>)
    requires KeysProven(trust, es) && Chained(es) && AllSigned(trust, es)
    ensures Verifies(trust, es) <==> AllStand(trust, es)
  {
  }

  lemma LastHasNoLater(trust: Trust, es: seq<Entry>, e: Entry)
    requires Plain(e) && !TrustedWhenSigned(trust, es + [e], e)
    ensures !VerifiesByLater(trust, es + [e])
  {
    assert (es + [e])[|es|] == e && !StandsByLater(trust, es + [e], |es|);
  }

  lemma UntrustedStandsExactlyWhen(trust: Trust, es: seq<Entry>, e: Entry)
    requires Plain(e) && !TrustedWhenSigned(trust, es, e)
    ensures !TrustedWhenSigned(trust, es + [e], e)
    ensures Stands(trust, es + [e], e) <==> Resealed(trust, es, e.seqNo)
  {
    PlainChangesNoTrust(trust, es, e, e);
    OnlyOldReseals(trust, es, e, e.seqNo);
  }

  lemma AppendedStandsExactlyWhen(trust: Trust, es: seq<Entry>, e: Entry)
    requires forall i :: 0 <= i < |es| ==> Stands(trust, es + [e], es[i])
    ensures AllStand(trust, es + [e]) <==> Stands(trust, es + [e], e)
  {
    assert (es + [e])[|es|] == e;
    forall i | 0 <= i < |es| ensures (es + [e])[i] == es[i] { }
  }

  // ---------------------------------------------------------------- rotations stand whoever signs them

  lemma GrowingKeepsStanding(trust: Trust, es: seq<Entry>, e: Entry, x: Entry)
    requires RootsOf(trust, es + [e]) == RootsOf(trust, es) && InForce(trust, es + [e]) == InForce(trust, es) && Stands(trust, es, x)
    ensures Stands(trust, es + [e], x)
  {
    if TrustedWhenSigned(trust, es, x) {
      UntouchedStaysTrusted(trust, es, [e], x);
    } else if Resealed(trust, es, x.seqNo) {
      var j :| 0 <= j < |es| && Reseals(es[j], x.seqNo) && TrustedWhenSigned(trust, es, es[j]);
      UntouchedStaysTrusted(trust, es, [e], es[j]);
      assert (es + [e])[j] == es[j];
      TrustedResealHolds(trust, es + [e], x.seqNo, j);
    }
  }

  lemma RotationKeepsAllStanding(trust: Trust, es: seq<Entry>, e: Entry)
    requires AllStand(trust, es) && e.typ == KEY_ROTATION && !CarriesRevocation(e)
    ensures AllStand(trust, es + [e])
  {
    ExtendedCarries(trust, es, e);
    forall i: nat | i < |es| ensures Stands(trust, es + [e], es[i]) { GrowingKeepsStanding(trust, es, e, es[i]); }
    StandsAtOnce(trust, es + [e], e);
    AppendedStandsExactlyWhen(trust, es, e);
  }

  lemma ExtendedIsProvenExactlyWhen(trust: Trust, es: seq<Entry>, e: Entry)
    requires KeysProven(trust, es) && !CarriesRoot(e)
    ensures KeysProven(trust, es + [e]) <==> EntryProven(RootsOf(trust, es), e)
  {
    ExtendedCarries(trust, es, e);
    assert (es + [e])[|es|] == e;
    if EntryProven(RootsOf(trust, es), e) { ProvenStaysProven(trust, es, e); }
  }

  lemma ExtendedIsSignedExactlyWhen(trust: Trust, es: seq<Entry>, e: Entry)
    requires AllSigned(trust, es) && !CarriesRoot(e)
    ensures AllSigned(trust, es + [e]) <==> SignedByCertifiedKey(RootsOf(trust, es), es + [e], e)
  {
    ExtendedCarries(trust, es, e);
    var out, roots := es + [e], RootsOf(trust, es);
    assert out[|es|] == e;
    assert AllSigned(trust, out) ==> SignedAt(trust, out, |es|);
    forall i: nat | i < |es| ensures SignedAt(trust, out, i) {
      assert SignedAt(trust, es, i);
      SignedStaysSigned(roots, es, [e], es[i]);
    }
  }

  /**
   A KEY_ROTATION stands whoever signs it: added to a chain that verifies, without a revocation, it verifies exactly
   when some certificate of the chain, its own included, is for the key that signed it, trusted when it signed or not,
   and its own certificate, if it carries one, is a root's.
   */
  lemma RotationVerifiesExactlyWhen(trust: Trust, es: seq<Entry>, ts: int, payload: Payload, key: KeyPair)
    requires Verifies(trust, es) && Book(es) && payload.revocation.None?
    ensures var e := Seal(|es|, ts, KEY_ROTATION, payload, HeadHash(es), key);
      Verifies(trust, es + [e]) <==> SignedByCertifiedKey(RootsOf(trust, es), es + [e], e) && EntryProven(RootsOf(trust, es), e)
  {
    var e := Seal(|es|, ts, KEY_ROTATION, payload, HeadHash(es), key);
    AppendKeepsBook(es, KEY_ROTATION, payload, ts, key);
    ExtendedIsProvenExactlyWhen(trust, es, e);
    ExtendedIsSignedExactlyWhen(trust, es, e);
    RotationKeepsAllStanding(trust, es, e);
  }

  // ---------------------------------------------------------------- a chain that shows it

  const RootKid := Sha("root")
  const VenueKid := Sha("venue")
  const Key := KeyPair("venue", VenueKid)
  const VenueCert := Cert(VenueKid, Jwk("venue", None), 0, 0, RootKid, Some("root"))
  /** The key is declared compromised from 5 on; the verifier knows. */
  const Declared := Revocation(VenueKid, 5, Some(5), RootKid, Some("root"))
  const Pinned := Trust(Jwk("root", None), [Declared])
  const Founding := Seal(0, 0, GENESIS, Payload(None, None, Some(VenueCert), None, None, None, ""), Zero, Key)
  /** Written before the compromise, over a number not yet used. */
  const Early := Seal(1, 1, RESEAL, ResealPayload(2, 2), Founding.hash, Key)
  const Sealed := [Founding, Early]
  const Compromised := Seal(2, 9, OTHER, Payload(None, None, None, None, None, None, "made up"), Early.hash, Key)

  lemma SealedRoots()
    ensures RootsOf(Pinned, Sealed) == map[RootKid := RootInfo(Named(Pinned.root), -1, None)]
    ensures InForce(Pinned, Sealed) == map[VenueKid := Declared]
  {
    assert Sealed[..1] == [Founding] && [Founding][..0] == [];
    assert RootEvents([Founding]) == RootEvents([]) + [] == [];
    assert RootEvents(Sealed) == RootEvents([Founding]) + [] == [];
    assert Revocations([Founding]) == Revocations([]) + [] == [];
    assert Revocations(Sealed) == Revocations([Founding]) + [] == [];
    var roots := Walk(Named(Pinned.root), []).roots;
    assert RootsOf(Pinned, Sealed) == roots == map[RootKid := RootInfo(Named(Pinned.root), -1, None)];
    assert [Declared][..0] == [] && RevokeAll(roots, map[], []) == map[];
    assert RevocationCounts(roots, Declared);
    assert RevokeAll(roots, map[], [Declared]) == map[][VenueKid := Declared];
  }

  lemma SealedTrust(e: Entry)
    requires e.venueSig.kid == VenueKid
    ensures Certifies(RootsOf(Pinned, Sealed), Sealed, VenueKid, VenueCert)
    ensures TrustedWhenSigned(Pinned, Sealed, e) <==> 0 <= e.ts < 5
  {
    SealedRoots();
    assert CarriesCert(Sealed[0]) && Sealed[0].payload.cert.value == VenueCert;
    forall d | Certifies(RootsOf(Pinned, Sealed), Sealed, VenueKid, d) ensures d == VenueCert { }
  }

  lemma SealedIsBook()
    ensures Book(Sealed)
  {
    AppendKeepsBook([], GENESIS, Founding.payload, 0, Key);
    assert [] + [Founding] == [Founding] && HeadHash([Founding]) == Founding.hash;
    AppendKeepsBook([Founding], RESEAL, Early.payload, 1, Key);
    assert [Founding] + [Early] == Sealed;
  }

  lemma SealedIsSigned(e: Entry)
    requires e.venueSig == Sign(Key, e.hash)
    ensures SignedByCertifiedKey(RootsOf(Pinned, Sealed), Sealed, e)
  {
    SealedTrust(e);
    assert SignedBy(e, VenueCert.key.x);
  }

  lemma SealedIsProven()
    ensures KeysProven(Pinned, Sealed)
  {
    SealedRoots();
    assert CertSigned(RootsOf(Pinned, Sealed), VenueCert);
  }

  lemma SealedAreSigned()
    ensures AllSigned(Pinned, Sealed)
  {
    SealedIsSigned(Founding);
    SealedIsSigned(Early);
  }

  lemma SealedStand()
    ensures AllStand(Pinned, Sealed)
  {
    SealedTrust(Founding);
    SealedTrust(Early);
    StandsAtOnce(Pinned, Sealed, Founding);
    StandsAtOnce(Pinned, Sealed, Early);
  }

  lemma SealedVerifies()
    ensures Verifies(Pinned, Sealed) && Book(Sealed)
  {
    SealedIsBook();
    SealedIsProven();
    SealedAreSigned();
    SealedStand();
    StandingDecides(Pinned, Sealed);
  }

  lemma NumberTwoIsResealed()
    ensures Resealed(Pinned, Sealed, 2)
  {
    SealedTrust(Early);
    TrustedResealHolds(Pinned, Sealed, 2, 1);
  }

  lemma CompromisedIsSealed()
    ensures Compromised == Seal(|Sealed|, 9, OTHER, Compromised.payload, HeadHash(Sealed), Key) && Plain(Compromised)
  {
  }

  lemma CompromisedIsUntrusted()
    ensures SignedByCertifiedKey(RootsOf(Pinned, Sealed), Sealed, Compromised) && !TrustedWhenSigned(Pinned, Sealed, Compromised)
  {
    SealedIsSigned(Compromised);
    SealedTrust(Compromised);
  }

  /** An entry made with the compromised key verifies because the venue resealed its number beforehand. */
  lemma ResealBeforehandExcusesACompromisedEntry()
    ensures !TrustedWhenSigned(Pinned, Sealed, Compromised)
    ensures Verifies(Pinned, Sealed + [Compromised]) && !VerifiesByLater(Pinned, Sealed + [Compromised])
  {
    SealedVerifies();
    CompromisedIsSealed();
    CompromisedIsUntrusted();
    NumberTwoIsResealed();
    UntrustedAppendVerifiesExactlyWhen(Pinned, Sealed, 9, OTHER, Compromised.payload, Key);
  }
}
